/** The programs that serve a ROM: the chip-select program that turns the data pins into outputs,
    and standby (firmware/src/piodma/piorom2.c). */
module Serving {
  import opened Words
  import opened Pio
  import opened CsMonitor

  // A chip-select algorithm with its parameters.  on and off are cs_active_delay and
  // cs_inactive_delay.  AlgCs0 with a /BYTE pin, if hasByte.
  datatype Alg =
    | ServeCs0(serveCsLow0: nat, hasByte: bool, on: nat, off: nat)
    | ServeCs1(ignored: nat, on: nat, off: nat)
    | ServeCs2(pattern: nat, on: nat, off: nat)

  // ---------------------------------------------------------------------------------------------
  // The emitted programs
  // ---------------------------------------------------------------------------------------------

  // Where the program is, by what it does there.
  datatype Label = Release | Sample | Wait | Wait2 | Back | OnDelay | ByteCheck | Enable
                 | Poll | Check | Judge | Judge2 | OffDelay | EnableLow | Resume

  function Present(flag: bool): nat { if flag then 1 else 0 }

  // The position of the instruction that turns the pins into outputs.
  function EnablePos(alg: Alg): nat
  {
    match alg
    case ServeCs0(_, hasByte, on, _) => 3 + Present(on > 0) + Present(hasByte)
    case ServeCs1(_, on, _) => 4 + Present(on > 0)
    case ServeCs2(_, on, _) => 5 + Present(on > 0)
  }

  function Length(alg: Alg): nat
  {
    match alg
    case ServeCs0(_, hasByte, _, off) => EnablePos(alg) + 3 + Present(off > 0) + 2 * Present(hasByte)
    case ServeCs1(_, _, off) => EnablePos(alg) + 4 + Present(off > 0)
    case ServeCs2(_, _, off) => EnablePos(alg) + 4 + Present(off > 0)
  }

  function LabelAt(alg: Alg, pc: nat): Label
    requires pc < Length(alg)
  {
    var e := EnablePos(alg);
    match alg
    case ServeCs0(_, hasByte, on, off) =>
      if pc < 3 then [Release, Sample, Wait][pc]
      else if pc == 3 && on > 0 then OnDelay
      else if pc < e then ByteCheck
      else if pc < e + 3 then [Enable, Check, Judge][pc - e]
      else if pc == e + 3 && off > 0 then OffDelay
      else if pc == Length(alg) - 2 then EnableLow
      else Resume
    case ServeCs1(_, on, off) =>
      if pc < 4 then [Release, Sample, Wait, Wait2][pc]
      else if pc < e then OnDelay
      else if pc < e + 4 then [Enable, Check, Judge, Judge2][pc - e]
      else OffDelay
    case ServeCs2(_, on, off) =>
      if pc < 5 then [Release, Poll, Sample, Wait, Back][pc]
      else if pc < e then OnDelay
      else if pc < e + 4 then [Enable, Resume, Check, Judge][pc - e]
      else OffDelay
  }

  // The instruction at each label, its jumps resolved.
  function InstrAt(alg: Alg, at: Label): Instr
  {
    var e := EnablePos(alg);
    match alg
    case ServeCs0(low, _, on, off) =>
      (match at
       case Release => I(MovPindirs(Null))
       case Sample => I(MovXPins)
       case Wait => I(Jmp(if low == 0 then XDec else XZero, 1))
       case OnDelay => Instr(Nop, if on > 0 then on - 1 else 0)
       case ByteCheck => I(Jmp(PinHigh, e + 3 + Present(off > 0)))
       case Enable => I(MovPindirs(NotNull))
       case Check => I(MovXPins)
       case Judge => I(Jmp(if low == 0 then XZero else XDec, e + 1))
       case OffDelay => Instr(Nop, if off > 0 then off - 1 else 0)
       case EnableLow => I(MovPindirs(FromY))
       case _ => I(Jmp(Always, e + 1)))
    case ServeCs1(_, on, off) =>
      (match at
       case Release => I(MovPindirs(Null))
       case Sample => I(MovXPins)
       case Wait => I(Jmp(XZero, 4))
       case Wait2 => I(Jmp(XNotY, 1))
       case OnDelay => Instr(Nop, if on > 0 then on - 1 else 0)
       case Enable => I(MovPindirs(NotNull))
       case Check => I(MovXPins)
       case Judge => I(Jmp(XZero, e + 1))
       case Judge2 => I(Jmp(XNotY, 0))
       case _ => Instr(Nop, if off > 0 then off - 1 else 0))
    case ServeCs2(_, on, off) =>
      (match at
       case Release => I(MovPindirs(Null))
       case Poll => I(Jmp(PinHigh, 1))
       case Sample => I(MovXPins)
       case Wait => I(Jmp(XNotY, 5))
       case Back => I(Jmp(Always, 1))
       case OnDelay => Instr(Nop, if on > 0 then on - 1 else 0)
       case Enable => I(MovPindirs(NotNull))
       case Resume => I(Jmp(PinHigh, 0))
       case Check => I(MovXPins)
       case Judge => I(Jmp(XNotY, e + 1))
       case _ => Instr(Nop, if off > 0 then off - 1 else 0))
  }

  function WrapBottom(alg: Alg): nat { if alg.ServeCs1? then EnablePos(alg) + 1 else 0 }

  function WrapTop(alg: Alg): nat
  {
    EnablePos(alg) + (if alg.ServeCs0? then 2 else 3) + Present(alg.off > 0)
  }

  // Where execution goes on from a label, and where its jump leads.
  function FallsTo(alg: Alg, at: Label): Label
  {
    var enable := if alg.on > 0 then OnDelay else if alg.ServeCs0? && alg.hasByte then ByteCheck else Enable;
    match (alg, at)
    case (ServeCs0(_, _, _, _), Wait) => enable
    case (ServeCs0(_, hasByte, _, _), OnDelay) => if hasByte then ByteCheck else Enable
    case (ServeCs0(_, _, _, off), Judge) => if off > 0 then OffDelay else Release
    case (ServeCs0(_, _, _, _), OffDelay) => Release
    case (ServeCs1(_, _, _), Wait2) => enable
    case (ServeCs1(_, _, off), Judge2) => if off > 0 then OffDelay else Check
    case (ServeCs1(_, _, _), OffDelay) => Check
    case (ServeCs2(_, _, _), Release) => Poll
    case (ServeCs2(_, _, _), Wait) => Back
    case (ServeCs2(_, _, _), Enable) => Resume
    case (ServeCs2(_, _, _), Resume) => Check
    case (ServeCs2(_, _, off), Judge) => if off > 0 then OffDelay else Release
    case (ServeCs2(_, _, _), OffDelay) => Release
    case (_, Release) => Sample
    case (_, Poll) => Sample
    case (_, Sample) => Wait
    case (_, Wait) => Wait2
    case (_, OnDelay) => Enable
    case (_, ByteCheck) => Enable
    case (_, Enable) => Check
    case (_, Check) => Judge
    case (_, Judge) => Judge2
    case (_, EnableLow) => Resume
    case (_, _) => at
  }

  function JumpsTo(alg: Alg, at: Label): Label
  {
    match (alg, at)
    case (ServeCs0(_, _, _, _), Wait) => Sample
    case (ServeCs0(_, _, _, _), Resume) => Check
    case (ServeCs1(_, _, _), Wait2) => Sample
    case (ServeCs2(_, _, _), Resume) => Release
    case (ServeCs2(_, _, _), Judge) => Resume
    case (_, Poll) => Poll
    case (_, Back) => Poll
    case (_, Wait) => if alg.on > 0 then OnDelay else Enable
    case (_, ByteCheck) => EnableLow
    case (_, Judge) => Check
    case (_, Judge2) => Release
    case (_, _) => at
  }

  function FallPc(alg: Alg, pc: nat): nat { if pc == WrapTop(alg) then WrapBottom(alg) else pc + 1 }

  lemma FallCs0(alg: Alg, pc: nat)
    requires alg.ServeCs0? && pc < Length(alg) && InstrAt(alg, LabelAt(alg, pc)) != InstrAt(alg, Resume)
    ensures FallPc(alg, pc) < Length(alg) && LabelAt(alg, FallPc(alg, pc)) == FallsTo(alg, LabelAt(alg, pc))
  {
  }

  lemma FallCs1(alg: Alg, pc: nat)
    requires alg.ServeCs1? && pc < Length(alg)
    ensures FallPc(alg, pc) < Length(alg) && LabelAt(alg, FallPc(alg, pc)) == FallsTo(alg, LabelAt(alg, pc))
  {
  }

  lemma FallCs2(alg: Alg, pc: nat)
    requires alg.ServeCs2? && pc < Length(alg) && LabelAt(alg, pc) != Back
    ensures FallPc(alg, pc) < Length(alg) && LabelAt(alg, FallPc(alg, pc)) == FallsTo(alg, LabelAt(alg, pc))
  {
  }

  lemma JumpLands(alg: Alg, pc: nat)
    requires pc < Length(alg) && InstrAt(alg, LabelAt(alg, pc)).op.Jmp?
    ensures var target := InstrAt(alg, LabelAt(alg, pc)).op.target;
      target < Length(alg) && LabelAt(alg, target) == JumpsTo(alg, LabelAt(alg, pc))
  {
  }

  lemma ProgramCloses(alg: Alg, code: seq<Instr>)
    requires |code| == Length(alg)
    requires forall pc :: 0 <= pc < Length(alg) ==> code[pc] == InstrAt(alg, LabelAt(alg, pc))
    ensures Closed(Program(code, WrapBottom(alg), WrapTop(alg)))
  {
    forall pc | 0 <= pc < |code| && code[pc].op.Jmp?
      ensures code[pc].op.target < |code|
    {
      JumpLands(alg, pc);
    }
    assert code[|code| - 1] == InstrAt(alg, LabelAt(alg, Length(alg) - 1));
  }

  function ServeProgram(alg: Alg): (program: Program)
    ensures Closed(program) && |program.code| == Length(alg)
    ensures forall pc :: 0 <= pc < Length(alg) ==> program.code[pc] == InstrAt(alg, LabelAt(alg, pc))
  {
    var code := seq(Length(alg), pc requires 0 <= pc < Length(alg) => InstrAt(alg, LabelAt(alg, pc)));
    assert forall pc :: 0 <= pc < Length(alg) ==> code[pc] == InstrAt(alg, LabelAt(alg, pc));
    ProgramCloses(alg, code);
    Program(code, WrapBottom(alg), WrapTop(alg))
  }

  // The instructions added so far are the program's first.
  predicate Emitted(alg: Alg, code: seq<Instr>)
  {
    && |code| <= Length(alg)
    && forall pc :: 0 <= pc < |code| ==> code[pc] == InstrAt(alg, LabelAt(alg, pc))
  }

  method Add(code: seq<Instr>, instr: Instr, ghost alg: Alg) returns (longer: seq<Instr>)
    requires Emitted(alg, code) && |code| < Length(alg) && instr == InstrAt(alg, LabelAt(alg, |code|))
    ensures Emitted(alg, longer) && |longer| == |code| + 1
  {
    longer := code + [instr];
  }

  lemma EmittedWhole(alg: Alg, code: seq<Instr>)
    requires Emitted(alg, code) && |code| == Length(alg)
    ensures code == ServeProgram(alg).code
  {
  }

  // The emission, instruction by instruction, with labels taken from where they fall.
  method EmitCs0Active(alg: Alg) returns (code: seq<Instr>)
    requires alg.ServeCs0?
    ensures Emitted(alg, code) && |code| == EnablePos(alg)
  {
    code := [];
    code := Add(code, I(MovPindirs(Null)), alg);
    var loadCs := |code|;
    code := Add(code, I(MovXPins), alg);
    if alg.serveCsLow0 == 0 {
      code := Add(code, I(Jmp(XDec, loadCs)), alg);
    } else {
      code := Add(code, I(Jmp(XZero, loadCs)), alg);
    }
    if alg.on > 0 {
      code := Add(code, Instr(Nop, alg.on - 1), alg);
    }
    if alg.hasByte {
      var byteLow := |code| + 4 + (if alg.off > 0 then 1 else 0);
      code := Add(code, I(Jmp(PinHigh, byteLow)), alg);
    }
  }

  method EmitCs0Inactive(alg: Alg, start: seq<Instr>) returns (code: seq<Instr>, wrapTop: nat)
    requires alg.ServeCs0? && Emitted(alg, start) && |start| == EnablePos(alg)
    ensures Emitted(alg, code) && |code| == Length(alg) && wrapTop == WrapTop(alg)
  {
    code := Add(start, I(MovPindirs(NotNull)), alg);
    var checkCsGoneInactive := |code|;
    code := Add(code, I(MovXPins), alg);
    wrapTop := |code|;
    if alg.serveCsLow0 == 0 {
      code := Add(code, I(Jmp(XZero, checkCsGoneInactive)), alg);
    } else {
      code := Add(code, I(Jmp(XDec, checkCsGoneInactive)), alg);
    }
    if alg.off > 0 {
      wrapTop := |code|;
      code := Add(code, Instr(Nop, alg.off - 1), alg);
    }
    if alg.hasByte {
      code := Add(code, I(MovPindirs(FromY)), alg);
      code := Add(code, I(Jmp(Always, checkCsGoneInactive)), alg);
    }
  }

  method EmitCs0(alg: Alg) returns (program: Program)
    requires alg.ServeCs0?
    ensures program == ServeProgram(alg)
  {
    var code := EmitCs0Active(alg);
    var wrapTop: nat;
    code, wrapTop := EmitCs0Inactive(alg, code);
    EmittedWhole(alg, code);
    program := Program(code, 0, wrapTop);
  }

  method EmitCs1Active(alg: Alg) returns (code: seq<Instr>)
    requires alg.ServeCs1?
    ensures Emitted(alg, code) && |code| == EnablePos(alg) + 1
  {
    code := [];
    code := Add(code, I(MovPindirs(Null)), alg);
    var testIfActive := |code|;
    code := Add(code, I(MovXPins), alg);
    var active := |code| + 2;
    code := Add(code, I(Jmp(XZero, active)), alg);
    code := Add(code, I(Jmp(XNotY, testIfActive)), alg);
    if alg.on > 0 {
      code := Add(code, Instr(Nop, alg.on - 1), alg);
    }
    code := Add(code, I(MovPindirs(NotNull)), alg);
  }

  method EmitCs1(alg: Alg) returns (program: Program)
    requires alg.ServeCs1?
    ensures program == ServeProgram(alg)
  {
    var inactive := 0;
    var code := EmitCs1Active(alg);
    var wrapBottom := |code|;
    var testIfInactive := |code|;
    code := Add(code, I(MovXPins), alg);
    code := Add(code, I(Jmp(XZero, testIfInactive)), alg);
    var wrapTop := |code|;
    code := Add(code, I(Jmp(XNotY, inactive)), alg);
    if alg.off > 0 {
      wrapTop := |code|;
      code := Add(code, Instr(Nop, alg.off - 1), alg);
    }
    EmittedWhole(alg, code);
    program := Program(code, wrapBottom, wrapTop);
  }

  method EmitCs2Active(alg: Alg) returns (code: seq<Instr>)
    requires alg.ServeCs2?
    ensures Emitted(alg, code) && |code| == EnablePos(alg) + 1
  {
    code := [];
    code := Add(code, I(MovPindirs(Null)), alg);
    var inactivePoll := |code|;
    code := Add(code, I(Jmp(PinHigh, inactivePoll)), alg);
    code := Add(code, I(MovXPins), alg);
    var active := |code| + 2;
    code := Add(code, I(Jmp(XNotY, active)), alg);
    code := Add(code, I(Jmp(Always, inactivePoll)), alg);
    if alg.on > 0 {
      code := Add(code, Instr(Nop, alg.on - 1), alg);
    }
    code := Add(code, I(MovPindirs(NotNull)), alg);
  }

  method EmitCs2(alg: Alg) returns (program: Program)
    requires alg.ServeCs2?
    ensures program == ServeProgram(alg)
  {
    var inactive := 0;
    var code := EmitCs2Active(alg);
    var activePoll := |code|;
    code := Add(code, I(Jmp(PinHigh, inactive)), alg);
    code := Add(code, I(MovXPins), alg);
    var wrapTop := |code|;
    code := Add(code, I(Jmp(XNotY, activePoll)), alg);
    if alg.off > 0 {
      wrapTop := |code|;
      code := Add(code, Instr(Nop, alg.off - 1), alg);
    }
    EmittedWhole(alg, code);
    program := Program(code, inactive, wrapTop);
  }

  // ---------------------------------------------------------------------------------------------
  // When the chip is selected
  // ---------------------------------------------------------------------------------------------

  function FieldSelect(alg: Alg): Select
    requires !alg.ServeCs2?
  {
    match alg
    case ServeCs0(low, _, _, _) => Cs0Select(low)
    case ServeCs1(ignored, _, _) => LowExcept(ignored)
  }

  predicate SelectedField(alg: Alg, field: nat)
  {
    if alg.ServeCs2? then field != alg.pattern else Active(FieldSelect(alg), Field(field))
  }

  // The looks taken last found the chip selected.  AlgCs0 may have looked at /BYTE since.
  predicate SelectedNow(alg: Alg, looks: seq<Look>)
  {
    var n := |looks|;
    if alg.ServeCs2? then
      n > 1 && looks[n - 2] == JmpPin(false) && looks[n - 1].Field? && SelectedField(alg, looks[n - 1].field)
    else
      var k := if n > 0 && looks[n - 1].JmpPin? then n - 1 else n;
      k > 0 && looks[k - 1].Field? && SelectedField(alg, looks[k - 1].field)
  }

  // At some moment of the history it did.
  predicate EverSelected(alg: Alg, looks: seq<Look>)
  {
    exists n :: 0 <= n <= |looks| && SelectedNow(alg, looks[..n])
  }

  lemma EverSelectedGrows(alg: Alg, looks: seq<Look>, more: seq<Look>)
    ensures EverSelected(alg, looks) ==> EverSelected(alg, looks + more)
    ensures SelectedNow(alg, looks) ==> EverSelected(alg, looks)
  {
    if EverSelected(alg, looks) {
      var n :| 0 <= n <= |looks| && SelectedNow(alg, looks[..n]);
      assert (looks + more)[..n] == looks[..n];
    }
    assert looks[..|looks|] == looks;
  }

  // ---------------------------------------------------------------------------------------------
  // Safety
  // ---------------------------------------------------------------------------------------------

  // What Y is preloaded with.
  predicate Preloaded(alg: Alg, sm: Sm)
  {
    match alg
    case ServeCs0(_, hasByte, _, _) => hasByte ==> sm.y == 0xFF
    case ServeCs1(ignored, _, _) => sm.y == Pow2(ignored)
    case ServeCs2(pattern, _, _) => sm.y == pattern
  }

  predicate Sampled(sm: Sm) { sm.looks != [] && Last(sm.looks) == Field(sm.x) }

  // One cycle, label to label.
  lemma StepLabel(alg: Alg, sm: Sm, pins: Pins)
    requires sm.pc < Length(alg) && sm.delay == 0
    ensures var at := LabelAt(alg, sm.pc);
      var instr := InstrAt(alg, at);
      var next := Step(ServeProgram(alg), sm, pins);
      && next.pc < Length(alg)
      && next == Effect(sm, instr.op, pins).(pc := next.pc, delay := instr.delay)
      && LabelAt(alg, next.pc)
         == if instr.op.Jmp? && Jumps(sm, instr.op.cond, pins) then JumpsTo(alg, at) else FallsTo(alg, at)
  {
    var instr := InstrAt(alg, LabelAt(alg, sm.pc));
    assert ServeProgram(alg).code[sm.pc] == instr;
    if instr.op.Jmp? { JumpLands(alg, sm.pc); }
    if !(instr.op.Jmp? && instr.op.cond == Always) {
      match alg
      case ServeCs0(_, _, _, _) => FallCs0(alg, sm.pc);
      case ServeCs1(_, _, _) => FallCs1(alg, sm.pc);
      case ServeCs2(_, _, _) => FallCs2(alg, sm.pc);
    }
  }

  // What holds at each label of a serving program.
  predicate SafeAt(alg: Alg, at: Label, sm: Sm)
  {
    && Preloaded(alg, sm)
    && match at
       case Release => true
       case Poll => sm.dirs == 0
       case Sample => sm.dirs == 0 && (alg.ServeCs2? ==> sm.looks != [] && Last(sm.looks) == JmpPin(false))
       case Wait =>
         && sm.dirs == 0 && Sampled(sm)
         && (alg.ServeCs2? ==> |sm.looks| > 1 && sm.looks[|sm.looks| - 2] == JmpPin(false))
       case Wait2 => sm.dirs == 0 && Sampled(sm) && sm.x != 0
       case Back => sm.dirs == 0
       case OnDelay => sm.dirs == 0 && SelectedNow(alg, sm.looks) && Last(sm.looks).Field?
       case ByteCheck => sm.dirs == 0 && SelectedNow(alg, sm.looks) && Last(sm.looks).Field?
       case Enable => sm.dirs == 0 && SelectedNow(alg, sm.looks)
       case EnableLow => sm.dirs == 0 && SelectedNow(alg, sm.looks) && alg.ServeCs0? && alg.hasByte
       case Judge => sm.dirs != 0 && Sampled(sm)
       case Judge2 => sm.dirs != 0 && Sampled(sm) && sm.x != 0
       case _ => sm.dirs != 0
  }

  predicate Safe(alg: Alg, sm: Sm)
  {
    && sm.pc < Length(alg) && SafeAt(alg, LabelAt(alg, sm.pc), sm)
    && (sm.dirs != 0 ==> EverSelected(alg, sm.looks) && WholeByte(sm.dirs))
  }

  // D0-D7 are all outputs.
  predicate WholeByte(dirs: nat) { dirs % 256 == 0xFF }

  // The instruction at a label, done.
  function Done(alg: Alg, at: Label, sm: Sm, pins: Pins): Sm { Effect(sm, InstrAt(alg, at).op, pins) }

  function NextAt(alg: Alg, at: Label, sm: Sm, pins: Pins): Label
  {
    var op := InstrAt(alg, at).op;
    if op.Jmp? && Jumps(sm, op.cond, pins) then JumpsTo(alg, at) else FallsTo(alg, at)
  }

  // The labels a program has.
  predicate Has(alg: Alg, at: Label)
  {
    match alg
    case ServeCs0(_, hasByte, _, _) =>
      at in {Release, Sample, Wait, OnDelay, Enable, Check, Judge, OffDelay}
      || (hasByte && at in {ByteCheck, EnableLow, Resume})
    case ServeCs1(_, _, _) =>
      at in {Release, Sample, Wait, Wait2, OnDelay, Enable, Check, Judge, Judge2, OffDelay}
    case ServeCs2(_, _, _) =>
      at in {Release, Poll, Sample, Wait, Back, OnDelay, Enable, Resume, Check, Judge, OffDelay}
  }

  lemma SafeDoneCs0(alg: Alg, at: Label, sm: Sm, pins: Pins)
    requires alg.ServeCs0? && Has(alg, at) && SafeAt(alg, at, sm)
    ensures SafeAt(alg, NextAt(alg, at, sm, pins), Done(alg, at, sm, pins))
  {
  }

  lemma SafeDoneCs1(alg: Alg, at: Label, sm: Sm, pins: Pins)
    requires alg.ServeCs1? && Has(alg, at) && SafeAt(alg, at, sm)
    ensures SafeAt(alg, NextAt(alg, at, sm, pins), Done(alg, at, sm, pins))
  {
  }

  lemma SafeDoneCs2(alg: Alg, at: Label, sm: Sm, pins: Pins)
    requires alg.ServeCs2? && Has(alg, at) && SafeAt(alg, at, sm)
    ensures SafeAt(alg, NextAt(alg, at, sm, pins), Done(alg, at, sm, pins))
  {
  }

  // Outputs are turned on only from a moment the chip is selected.
  lemma EnablesWhenSelected(alg: Alg, at: Label, sm: Sm, pins: Pins)
    requires Has(alg, at) && SafeAt(alg, at, sm) && sm.dirs == 0 && Done(alg, at, sm, pins).dirs != 0
    ensures SelectedNow(alg, sm.looks) && Done(alg, at, sm, pins).looks == sm.looks
  {
  }

  lemma HasLabel(alg: Alg, pc: nat)
    requires pc < Length(alg)
    ensures Has(alg, LabelAt(alg, pc))
  {
  }

  // Once a pin is an output, the history shows why.
  lemma DrivingIsJustified(alg: Alg, at: Label, sm: Sm, pins: Pins)
    requires Has(alg, at) && SafeAt(alg, at, sm) && (sm.dirs != 0 ==> EverSelected(alg, sm.looks))
    ensures Done(alg, at, sm, pins).dirs != 0 ==> EverSelected(alg, Done(alg, at, sm, pins).looks)
  {
    var looks := Done(alg, at, sm, pins).looks;
    assert exists more: seq<Look> :: looks == sm.looks + more by {
      assert looks == sm.looks + looks[|sm.looks|..];
    }
    var more: seq<Look> :| looks == sm.looks + more;
    EverSelectedGrows(alg, sm.looks, more);
    if sm.dirs == 0 && Done(alg, at, sm, pins).dirs != 0 {
      EnablesWhenSelected(alg, at, sm, pins);
    }
  }

  // D0-D7 change direction together.
  lemma ByteTogether(alg: Alg, at: Label, sm: Sm, pins: Pins)
    requires Has(alg, at) && SafeAt(alg, at, sm) && (sm.dirs != 0 ==> WholeByte(sm.dirs))
    ensures Done(alg, at, sm, pins).dirs != 0 ==> WholeByte(Done(alg, at, sm, pins).dirs)
  {
  }

  lemma SafeIgnoresPc(alg: Alg, at: Label, sm: Sm, pc: nat, delay: nat)
    ensures SafeAt(alg, at, sm) <==> SafeAt(alg, at, sm.(pc := pc, delay := delay))
  {
  }

  lemma SafeStep(alg: Alg, sm: Sm, pins: Pins)
    requires Safe(alg, sm)
    ensures Safe(alg, Step(ServeProgram(alg), sm, pins))
  {
    if sm.delay == 0 {
      var at, next := LabelAt(alg, sm.pc), Step(ServeProgram(alg), sm, pins);
      StepLabel(alg, sm, pins);
      HasLabel(alg, sm.pc);
      match alg {
        case ServeCs0(_, _, _, _) => SafeDoneCs0(alg, at, sm, pins);
        case ServeCs1(_, _, _) => SafeDoneCs1(alg, at, sm, pins);
        case ServeCs2(_, _, _) => SafeDoneCs2(alg, at, sm, pins);
      }
      DrivingIsJustified(alg, at, sm, pins);
      ByteTogether(alg, at, sm, pins);
      SafeIgnoresPc(alg, NextAt(alg, at, sm, pins), Done(alg, at, sm, pins), next.pc, next.delay);
    } else {
      SafeIgnoresPc(alg, LabelAt(alg, sm.pc), sm, sm.pc, sm.delay - 1);
    }
  }

  // ---------------------------------------------------------------------------------------------
  // Release and response within a constant number of cycles
  // ---------------------------------------------------------------------------------------------

  // Why the chip is not selected: its enable, or else its range, for AlgCs2; its pins otherwise.
  datatype Reason = ByEnable | ByRange

  predicate Deselected(alg: Alg, reason: Reason, pins: Pins)
  {
    if !alg.ServeCs2? then !SelectedField(alg, pins.field)
    else if reason == ByEnable then pins.jmp
    else pins.field == alg.pattern
  }

  predicate SelectedPins(alg: Alg, pins: Pins)
  {
    SelectedField(alg, pins.field) && (alg.ServeCs2? ==> !pins.jmp)
  }

  // Cycles a label still needs, after its delay, for the pins to be inputs for good while the chip
  // is deselected.
  function OffCycles(alg: Alg, reason: Reason, at: Label, x: nat): nat
  {
    var stale := SelectedField(alg, x);
    match (alg, at)
    case (_, Release) => 1
    case (ServeCs0(_, _, on, off), Wait) => if stale then on + off + 7 else 0
    case (ServeCs0(_, _, on, off), OnDelay) => on + off + 6
    case (ServeCs0(_, _, _, off), ByteCheck) => off + 6
    case (ServeCs0(_, _, _, off), EnableLow) => off + 5
    case (ServeCs0(_, _, _, off), Enable) => off + 4
    case (ServeCs0(_, _, _, off), Resume) => off + 4
    case (ServeCs0(_, _, _, off), Check) => off + 3
    case (ServeCs0(_, _, _, off), Judge) => if stale then off + 4 else off + 2
    case (ServeCs0(_, _, _, off), OffDelay) => off + 1
    case (ServeCs1(_, on, _), Wait) => if stale then on + 7 else 0
    case (ServeCs1(_, on, _), Wait2) => if stale then on + 6 else 0
    case (ServeCs1(_, on, _), OnDelay) => on + 5
    case (ServeCs1(_, _, _), Enable) => 5
    case (ServeCs1(_, _, _), Check) => 4
    case (ServeCs1(_, _, off), Judge) => if stale then off + 6 else 3
    case (ServeCs1(_, _, off), Judge2) => if stale then off + 5 else 2
    case (ServeCs1(_, _, off), OffDelay) => off + 4
    case (ServeCs2(_, on, off), Sample) => if reason == ByEnable then on + off + 7 else 0
    case (ServeCs2(_, on, off), Wait) => if stale then on + off + 6 else 0
    case (ServeCs2(_, on, off), OnDelay) => on + off + 5
    case (ServeCs2(_, _, off), Enable) => off + 5
    case (ServeCs2(_, _, off), Resume) => off + 4
    case (ServeCs2(_, _, off), Check) => if reason == ByEnable then off + 6 else off + 3
    case (ServeCs2(_, _, off), Judge) => if stale then off + 5 else off + 2
    case (ServeCs2(_, _, off), OffDelay) => off + 1
    case (_, _) => 0
  }

  // Cycles a label still needs, after its delay, for pins to be outputs for good while the chip is
  // selected.
  function OnCycles(alg: Alg, at: Label, x: nat): nat
  {
    var selected := SelectedField(alg, x);
    var on := alg.on;
    match (alg, at)
    case (ServeCs0(_, _, _, _), Release) => on + 5
    case (ServeCs0(_, _, _, _), Sample) => on + 4
    case (ServeCs0(_, _, _, _), Wait) => if selected then on + 3 else on + 5
    case (ServeCs0(_, _, _, _), OnDelay) => on + 2
    case (ServeCs0(_, _, _, _), ByteCheck) => 2
    case (ServeCs0(_, _, _, off), Judge) => if selected then 0 else off + on + 6
    case (ServeCs0(_, _, _, off), OffDelay) => off + on + 5
    case (ServeCs1(_, _, _), Release) => on + 5
    case (ServeCs1(_, _, _), Sample) => on + 4
    case (ServeCs1(_, _, _), Wait) => if selected then on + 3 else on + 6
    case (ServeCs1(_, _, _), Wait2) => if selected then on + 2 else on + 5
    case (ServeCs1(_, _, _), OnDelay) => on + 1
    case (ServeCs1(_, _, _), Judge) => if selected then 0 else on + 7
    case (ServeCs1(_, _, _), Judge2) => if selected then 0 else on + 6
    case (ServeCs2(_, _, _), Release) => on + 5
    case (ServeCs2(_, _, _), Poll) => on + 4
    case (ServeCs2(_, _, _), Sample) => on + 3
    case (ServeCs2(_, _, _), Wait) => if selected then on + 2 else on + 6
    case (ServeCs2(_, _, _), Back) => on + 5
    case (ServeCs2(_, _, _), OnDelay) => on + 1
    case (ServeCs2(_, _, off), Judge) => if selected then 0 else off + on + 6
    case (ServeCs2(_, _, off), OffDelay) => off + on + 5
    case (_, Enable) => 1
    case (_, EnableLow) => 1
    case (_, _) => 0
  }

  // The most cycles either can take.
  function Limit(alg: Alg): nat { alg.on + alg.off + 8 }

  function AfterDelay(alg: Alg, at: Label): nat { InstrAt(alg, at).delay }

  lemma OffCountsDown(alg: Alg, reason: Reason, at: Label, sm: Sm, pins: Pins)
    requires Has(alg, at) && SafeAt(alg, at, sm) && Deselected(alg, reason, pins)
    requires at == OnDelay ==> alg.on > 0
    requires at == OffDelay ==> alg.off > 0
    ensures var left := OffCycles(alg, reason, NextAt(alg, at, sm, pins), Done(alg, at, sm, pins).x);
            left > 0 ==> AfterDelay(alg, at) + left < OffCycles(alg, reason, at, sm.x)
    ensures OffCycles(alg, reason, at, sm.x) == 0 ==> sm.dirs == 0
  {
  }

  lemma OnCountsDown(alg: Alg, at: Label, sm: Sm, pins: Pins)
    requires Has(alg, at) && SafeAt(alg, at, sm) && SelectedPins(alg, pins)
    requires at == OnDelay ==> alg.on > 0
    requires at == OffDelay ==> alg.off > 0
    ensures var left := OnCycles(alg, NextAt(alg, at, sm, pins), Done(alg, at, sm, pins).x);
            left > 0 ==> AfterDelay(alg, at) + left < OnCycles(alg, at, sm.x)
    ensures OnCycles(alg, at, sm.x) == 0 ==> sm.dirs != 0
  {
  }

  // Delays are only ever those of the two delay instructions, shown at the label that follows.
  predicate Timed(alg: Alg, sm: Sm)
  {
    sm.delay == 0 || (sm.pc < Length(alg) && DelayedAt(alg, LabelAt(alg, sm.pc), sm.delay))
  }

  predicate DelayedAt(alg: Alg, at: Label, delay: nat)
  {
    || (at == FallsTo(alg, OnDelay) && delay < alg.on)
    || (at == FallsTo(alg, OffDelay) && delay < alg.off)
  }

  lemma DelayShown(alg: Alg, at: Label)
    requires Has(alg, at) && InstrAt(alg, at).delay > 0
    ensures !InstrAt(alg, at).op.Jmp? && DelayedAt(alg, FallsTo(alg, at), InstrAt(alg, at).delay)
  {
  }

  lemma TimedStep(alg: Alg, sm: Sm, pins: Pins)
    requires Safe(alg, sm) && Timed(alg, sm)
    ensures Timed(alg, Step(ServeProgram(alg), sm, pins))
  {
    if sm.delay == 0 {
      StepLabel(alg, sm, pins);
      HasLabel(alg, sm.pc);
      if InstrAt(alg, LabelAt(alg, sm.pc)).delay > 0 {
        DelayShown(alg, LabelAt(alg, sm.pc));
      }
    }
  }

  lemma LabelsPresent(alg: Alg, pc: nat)
    requires pc < Length(alg)
    ensures LabelAt(alg, pc) == OnDelay ==> alg.on > 0
    ensures LabelAt(alg, pc) == OffDelay ==> alg.off > 0
  {
  }

  function OffLeft(alg: Alg, reason: Reason, sm: Sm): nat
    requires sm.pc < Length(alg)
  {
    var cycles := OffCycles(alg, reason, LabelAt(alg, sm.pc), sm.x);
    if cycles == 0 then 0 else sm.delay + cycles
  }

  function OnLeft(alg: Alg, sm: Sm): nat
    requires sm.pc < Length(alg)
  {
    var cycles := OnCycles(alg, LabelAt(alg, sm.pc), sm.x);
    if cycles == 0 then 0 else sm.delay + cycles
  }

  lemma OffStep(alg: Alg, reason: Reason, sm: Sm, pins: Pins)
    requires Safe(alg, sm) && Deselected(alg, reason, pins)
    ensures Step(ServeProgram(alg), sm, pins).pc < Length(alg)
    ensures var left := OffLeft(alg, reason, Step(ServeProgram(alg), sm, pins));
            left > 0 ==> left < OffLeft(alg, reason, sm)
  {
    SafeStep(alg, sm, pins);
    if sm.delay == 0 {
      StepLabel(alg, sm, pins);
      HasLabel(alg, sm.pc);
      LabelsPresent(alg, sm.pc);
      OffCountsDown(alg, reason, LabelAt(alg, sm.pc), sm, pins);
    }
  }

  lemma OnStep(alg: Alg, sm: Sm, pins: Pins)
    requires Safe(alg, sm) && SelectedPins(alg, pins)
    ensures Step(ServeProgram(alg), sm, pins).pc < Length(alg)
    ensures var left := OnLeft(alg, Step(ServeProgram(alg), sm, pins));
            left > 0 ==> left < OnLeft(alg, sm)
  {
    SafeStep(alg, sm, pins);
    if sm.delay == 0 {
      StepLabel(alg, sm, pins);
      HasLabel(alg, sm.pc);
      LabelsPresent(alg, sm.pc);
      OnCountsDown(alg, LabelAt(alg, sm.pc), sm, pins);
    }
  }

  lemma WithinLimit(alg: Alg, reason: Reason, sm: Sm)
    requires Safe(alg, sm) && Timed(alg, sm)
    ensures OffLeft(alg, reason, sm) <= Limit(alg) && OnLeft(alg, sm) <= Limit(alg)
  {
  }

  lemma {:induction false} SafeRun(alg: Alg, sm: Sm, history: seq<Pins>)
    requires Safe(alg, sm) && Timed(alg, sm)
    ensures Safe(alg, Run(ServeProgram(alg), sm, history)) && Timed(alg, Run(ServeProgram(alg), sm, history))
    decreases |history|
  {
    if history != [] {
      var before := history[..|history| - 1];
      SafeRun(alg, sm, before);
      SafeStep(alg, Run(ServeProgram(alg), sm, before), history[|history| - 1]);
      TimedStep(alg, Run(ServeProgram(alg), sm, before), history[|history| - 1]);
    }
  }

  function Less(a: nat, b: nat): nat { if a > b then a - b else 0 }

  // In every run, each cycle that turns the data pins into outputs comes straight after looks that
  // found the chip selected.
  lemma TurnsOnOnlyWhenSelected(alg: Alg, sm: Sm, history: seq<Pins>, pins: Pins)
    requires Safe(alg, sm) && Timed(alg, sm)
    requires Run(ServeProgram(alg), sm, history).dirs == 0
    ensures Run(ServeProgram(alg), sm, history + [pins]).dirs != 0 ==>
              SelectedNow(alg, Run(ServeProgram(alg), sm, history).looks)
  {
    var middle := Run(ServeProgram(alg), sm, history);
    assert (history + [pins])[..|history|] == history;
    SafeRun(alg, sm, history);
    if middle.delay == 0 {
      StepLabel(alg, middle, pins);
      HasLabel(alg, middle.pc);
      if Step(ServeProgram(alg), middle, pins).dirs != 0 {
        EnablesWhenSelected(alg, LabelAt(alg, middle.pc), middle, pins);
      }
    }
  }

  // Deselected for Limit cycles, the data pins are inputs, and they stay so.
  lemma {:induction false} ReleasesInTime(alg: Alg, reason: Reason, sm: Sm, history: seq<Pins>)
    requires Safe(alg, sm) && Timed(alg, sm)
    requires forall i :: 0 <= i < |history| ==> Deselected(alg, reason, history[i])
    ensures var end := Run(ServeProgram(alg), sm, history);
            && OffLeft(alg, reason, end) <= Less(OffLeft(alg, reason, sm), |history|)
            && (|history| >= Limit(alg) ==> end.dirs == 0)
    decreases |history|
  {
    if history != [] {
      var before := history[..|history| - 1];
      ReleasesInTime(alg, reason, sm, before);
      SafeRun(alg, sm, before);
      OffStep(alg, reason, Run(ServeProgram(alg), sm, before), history[|history| - 1]);
    }
    SafeRun(alg, sm, history);
    WithinLimit(alg, reason, sm);
    InputsOnceOff(alg, reason, Run(ServeProgram(alg), sm, history));
  }

  lemma InputsOnceOff(alg: Alg, reason: Reason, sm: Sm)
    requires Safe(alg, sm)
    ensures OffLeft(alg, reason, sm) == 0 ==> sm.dirs == 0
    ensures OnLeft(alg, sm) == 0 ==> sm.dirs != 0
  {
    HasLabel(alg, sm.pc);
  }

  // Selected for Limit cycles, data pins are outputs, and they stay so.
  lemma {:induction false} RespondsInTime(alg: Alg, sm: Sm, history: seq<Pins>)
    requires Safe(alg, sm) && Timed(alg, sm)
    requires forall i :: 0 <= i < |history| ==> SelectedPins(alg, history[i])
    ensures var end := Run(ServeProgram(alg), sm, history);
            && OnLeft(alg, end) <= Less(OnLeft(alg, sm), |history|)
            && (|history| >= Limit(alg) ==> end.dirs != 0 && WholeByte(end.dirs))
    decreases |history|
  {
    if history != [] {
      var before := history[..|history| - 1];
      RespondsInTime(alg, sm, before);
      SafeRun(alg, sm, before);
      OnStep(alg, Run(ServeProgram(alg), sm, before), history[|history| - 1]);
    }
    SafeRun(alg, sm, history);
    WithinLimit(alg, ByEnable, sm);
    InputsOnceOff(alg, ByEnable, Run(ServeProgram(alg), sm, history));
  }

  // With /BYTE inactive, all of the data pins change direction together.
  predicate FullWidth(alg: Alg, sm: Sm)
  {
    sm.pc < Length(alg) && sm.dirs in {0, WORD - 1} && LabelAt(alg, sm.pc) != EnableLow
  }

  predicate WordPins(alg: Alg, pins: Pins) { alg.ServeCs0? && alg.hasByte ==> !pins.jmp }

  lemma FullWidthDone(alg: Alg, at: Label, sm: Sm, pins: Pins)
    requires Has(alg, at) && at != EnableLow && sm.dirs in {0, WORD - 1} && WordPins(alg, pins)
    ensures Done(alg, at, sm, pins).dirs in {0, WORD - 1} && NextAt(alg, at, sm, pins) != EnableLow
  {
  }

  lemma FullWidthStep(alg: Alg, sm: Sm, pins: Pins)
    requires Safe(alg, sm) && FullWidth(alg, sm) && WordPins(alg, pins)
    ensures FullWidth(alg, Step(ServeProgram(alg), sm, pins))
  {
    if sm.delay == 0 {
      StepLabel(alg, sm, pins);
      HasLabel(alg, sm.pc);
      FullWidthDone(alg, LabelAt(alg, sm.pc), sm, pins);
    }
  }

  lemma {:induction false} FullWidthRun(alg: Alg, sm: Sm, history: seq<Pins>)
    requires Safe(alg, sm) && Timed(alg, sm) && FullWidth(alg, sm)
    requires forall i :: 0 <= i < |history| ==> WordPins(alg, history[i])
    ensures FullWidth(alg, Run(ServeProgram(alg), sm, history))
    decreases |history|
  {
    if history != [] {
      var before := history[..|history| - 1];
      FullWidthRun(alg, sm, before);
      SafeRun(alg, sm, before);
      FullWidthStep(alg, Run(ServeProgram(alg), sm, before), history[|history| - 1]);
    }
  }

  // The pins in the three cycles of one pass of AlgCs2's poll.
  datatype Pass = Pass(first: Pins, second: Pins, third: Pins)

  // What the pass sees: the enable in its first cycle, the qualifiers in its second, and nothing
  // between.
  predicate SeesSelected(alg: Alg, pass: Pass)
    requires alg.ServeCs2?
  {
    !pass.first.jmp && pass.second.field != alg.pattern
  }

  // Driving, and about to start a pass.
  predicate Polling(alg: Alg, sm: Sm)
  {
    && sm.pc < Length(alg) && LabelAt(alg, sm.pc) == Resume
    && sm.delay == 0 && sm.dirs != 0 && Preloaded(alg, sm)
  }

  function RunPass(alg: Alg, sm: Sm, pass: Pass): (end: Sm)
    requires sm.pc < Length(alg)
    ensures end.pc < Length(alg)
  {
    Run(ServeProgram(alg), sm, [pass.first, pass.second, pass.third])
  }

  lemma RunThree(program: Program, sm: Sm, a: Pins, b: Pins, c: Pins)
    requires Closed(program) && sm.pc < |program.code|
    ensures Step(program, sm, a).pc < |program.code|
    ensures Step(program, Step(program, sm, a), b).pc < |program.code|
    ensures Run(program, sm, [a, b, c]) == Step(program, Step(program, Step(program, sm, a), b), c)
  {
    assert [a, b, c][..2] == [a, b] && [a, b][..1] == [a] && [a][..0] == [];
    StepStays(program, sm, a);
    StepStays(program, Step(program, sm, a), b);
    assert Run(program, sm, []) == sm;
    assert Run(program, sm, [a]) == Step(program, sm, a);
    assert Run(program, sm, [a, b]) == Step(program, Step(program, sm, a), b);
  }

  lemma RunTwo(program: Program, sm: Sm, a: Pins, b: Pins)
    requires Closed(program) && sm.pc < |program.code|
    ensures Step(program, sm, a).pc < |program.code|
    ensures Run(program, sm, [a]) == Step(program, sm, a)
    ensures Run(program, sm, [a, b]) == Step(program, Step(program, sm, a), b)
  {
    assert [a, b][..1] == [a] && [a][..0] == [];
    StepStays(program, sm, a);
    assert Run(program, sm, []) == sm;
  }

  // Where a state machine of AlgCs2 is, with no delay left.
  predicate Ready(alg: Alg, sm: Sm, at: Label)
  {
    alg.ServeCs2? && sm.pc < Length(alg) && sm.delay == 0 && LabelAt(alg, sm.pc) == at && Preloaded(alg, sm)
  }

  lemma ResumeStep(alg: Alg, sm: Sm, pins: Pins)
    requires Ready(alg, sm, Resume)
    ensures var next := Step(ServeProgram(alg), sm, pins);
      Ready(alg, next, if pins.jmp then Release else Check) && next.dirs == sm.dirs
  {
    StepLabel(alg, sm, pins);
  }

  lemma CheckStep(alg: Alg, sm: Sm, pins: Pins)
    requires Ready(alg, sm, Check)
    ensures var next := Step(ServeProgram(alg), sm, pins);
      Ready(alg, next, Judge) && next.dirs == sm.dirs && next.x == pins.field
  {
    StepLabel(alg, sm, pins);
  }

  lemma JudgeStep(alg: Alg, sm: Sm, pins: Pins)
    requires Ready(alg, sm, Judge)
    ensures var next := Step(ServeProgram(alg), sm, pins);
      && Ready(alg, next, if sm.x != alg.pattern then Resume else if alg.off > 0 then OffDelay else Release)
      && next.dirs == sm.dirs
  {
    StepLabel(alg, sm, pins);
  }

  lemma ReleaseStep(alg: Alg, sm: Sm, pins: Pins)
    requires Ready(alg, sm, Release)
    ensures var next := Step(ServeProgram(alg), sm, pins);
      Ready(alg, next, Poll) && next.dirs == 0
  {
    StepLabel(alg, sm, pins);
  }

  lemma PollStep(alg: Alg, sm: Sm, pins: Pins)
    requires Ready(alg, sm, Poll)
    ensures var next := Step(ServeProgram(alg), sm, pins);
      Ready(alg, next, if pins.jmp then Poll else Sample) && next.dirs == sm.dirs
  {
    StepLabel(alg, sm, pins);
  }

  lemma SampleStep(alg: Alg, sm: Sm, pins: Pins)
    requires Ready(alg, sm, Sample)
    ensures var next := Step(ServeProgram(alg), sm, pins);
      Ready(alg, next, Wait) && next.x == pins.field
  {
    StepLabel(alg, sm, pins);
  }

  lemma WaitStep(alg: Alg, sm: Sm, pins: Pins)
    requires Ready(alg, sm, Wait) && sm.x != alg.pattern
    ensures Ready(alg, Step(ServeProgram(alg), sm, pins), if alg.on > 0 then OnDelay else Enable)
  {
    StepLabel(alg, sm, pins);
  }

  lemma OnDelayStep(alg: Alg, sm: Sm, pins: Pins)
    requires Ready(alg, sm, OnDelay)
    ensures var next := Step(ServeProgram(alg), sm, pins);
      alg.on > 0 && next.delay == alg.on - 1 && Ready(alg, next.(delay := 0), Enable)
  {
    StepLabel(alg, sm, pins);
    LabelsPresent(alg, sm.pc);
  }

  lemma EnableStep(alg: Alg, sm: Sm, pins: Pins)
    requires Ready(alg, sm, Enable)
    ensures Polling(alg, Step(ServeProgram(alg), sm, pins))
  {
    StepLabel(alg, sm, pins);
  }

  // A pass goes on to the next one exactly when it sees the chip selected.  One that does not has
  // turned the pins into inputs, or is at most off + 1 cycles from it.
  lemma OnePass(alg: Alg, sm: Sm, pass: Pass)
    requires alg.ServeCs2? && Polling(alg, sm)
    ensures Polling(alg, RunPass(alg, sm, pass)) <==> SeesSelected(alg, pass)
    ensures SeesSelected(alg, pass) ==> DrivesPass(alg, sm, pass)
    ensures !SeesSelected(alg, pass) ==> GoingOut(alg, RunPass(alg, sm, pass), alg.off + 1)
  {
    var program := ServeProgram(alg);
    RunTwo(program, sm, pass.first, pass.second);
    RunThree(program, sm, pass.first, pass.second, pass.third);
    ResumeStep(alg, sm, pass.first);
    var second := Step(program, sm, pass.first);
    if pass.first.jmp {
      ReleaseStep(alg, second, pass.second);
      PollStep(alg, Step(program, second, pass.second), pass.third);
    } else {
      CheckStep(alg, second, pass.second);
      JudgeStep(alg, Step(program, second, pass.second), pass.third);
    }
  }

  // The pins are inputs, or will be in at most `left` cycles.
  predicate GoingOut(alg: Alg, sm: Sm, left: nat)
  {
    || sm.dirs == 0
    || (alg.ServeCs2? && sm.pc < Length(alg) && Preloaded(alg, sm)
        && ((LabelAt(alg, sm.pc) == Release && sm.delay + 1 <= left)
            || (LabelAt(alg, sm.pc) == OffDelay && sm.delay == 0 && alg.off + 1 <= left)))
  }

  lemma GoingOutStep(alg: Alg, sm: Sm, pins: Pins, left: nat)
    requires sm.pc < Length(alg) && sm.dirs != 0 && GoingOut(alg, sm, left)
    ensures left > 0 && GoingOut(alg, Step(ServeProgram(alg), sm, pins), left - 1)
  {
    LabelsPresent(alg, sm.pc);
    if sm.delay == 0 { StepLabel(alg, sm, pins); }
  }

  // At some moment of the history the data pins are inputs.
  predicate InputsAtSomeCycle(alg: Alg, sm: Sm, history: seq<Pins>)
    requires sm.pc < Length(alg)
  {
    exists m :: 0 <= m <= |history| && InputsAfter(alg, sm, history[..m])
  }

  predicate InputsAfter(alg: Alg, sm: Sm, history: seq<Pins>)
    requires sm.pc < Length(alg)
  {
    Run(ServeProgram(alg), sm, history).dirs == 0
  }

  lemma {:induction false} GoesOut(alg: Alg, sm: Sm, history: seq<Pins>, left: nat)
    requires sm.pc < Length(alg) && GoingOut(alg, sm, left) && |history| <= left
    ensures InputsAtSomeCycle(alg, sm, history)
            || GoingOut(alg, Run(ServeProgram(alg), sm, history), left - |history|)
    decreases |history|
  {
    if history != [] {
      var before := history[..|history| - 1];
      GoesOut(alg, sm, before, left);
      if InputsAtSomeCycle(alg, sm, before) {
        var m :| 0 <= m <= |before| && InputsAfter(alg, sm, before[..m]);
        assert history[..m] == before[..m];
      } else {
        assert !InputsAfter(alg, sm, before[..|before|]) && before[..|before|] == before;
        GoingOutStep(alg, Run(ServeProgram(alg), sm, before), history[|history| - 1], left - |before|);
      }
    }
  }

  // A pass that does not see the chip selected releases it: the pins are inputs within off + 1
  // cycles of it, whatever they do in those.
  lemma UnseenPassReleases(alg: Alg, sm: Sm, pass: Pass, later: seq<Pins>)
    requires alg.ServeCs2? && Polling(alg, sm) && !SeesSelected(alg, pass) && |later| == alg.off + 1
    ensures InputsAtSomeCycle(alg, RunPass(alg, sm, pass), later)
  {
    var middle := RunPass(alg, sm, pass);
    OnePass(alg, sm, pass);
    assert later[..|later|] == later;
    GoesOut(alg, middle, later, alg.off + 1);
  }

  function RunPasses(alg: Alg, sm: Sm, passes: seq<Pass>): (end: Sm)
    requires sm.pc < Length(alg)
    ensures end.pc < Length(alg)
    decreases |passes|
  {
    if passes == [] then sm
    else RunPass(alg, RunPasses(alg, sm, passes[..|passes| - 1]), passes[|passes| - 1])
  }

  // The pins are outputs after each cycle of a pass, and the next pass starts.
  predicate DrivesPass(alg: Alg, sm: Sm, pass: Pass)
    requires sm.pc < Length(alg)
  {
    && !InputsAfter(alg, sm, [pass.first]) && !InputsAfter(alg, sm, [pass.first, pass.second])
    && Polling(alg, RunPass(alg, sm, pass))
  }

  // That holds of each of the passes.
  predicate DrivesThrough(alg: Alg, sm: Sm, passes: seq<Pass>)
    requires sm.pc < Length(alg)
    decreases |passes|
  {
    passes != [] ==>
      && DrivesThrough(alg, sm, passes[..|passes| - 1])
      && DrivesPass(alg, RunPasses(alg, sm, passes[..|passes| - 1]), passes[|passes| - 1])
  }

  // Once it drives, AlgCs2 goes on for as many passes as see the chip selected, and no more.
  lemma {:induction false} DrivesWhileSeenSelected(alg: Alg, sm: Sm, passes: seq<Pass>)
    requires alg.ServeCs2? && Polling(alg, sm)
    ensures DrivesThrough(alg, sm, passes) <==> AllSeeSelected(alg, passes)
    ensures AllSeeSelected(alg, passes) ==> Polling(alg, RunPasses(alg, sm, passes))
    decreases |passes|
  {
    if passes != [] {
      var before, last := passes[..|passes| - 1], passes[|passes| - 1];
      DrivesWhileSeenSelected(alg, sm, before);
      LastSeen(alg, passes);
      if AllSeeSelected(alg, before) {
        OnePass(alg, RunPasses(alg, sm, before), last);
      }
    }
  }

  // At the first pass that does not, it releases: the pins are inputs within off + 1 cycles.
  lemma ReleasesWhenUnseen(alg: Alg, sm: Sm, passes: seq<Pass>, last: Pass, later: seq<Pins>)
    requires alg.ServeCs2? && Polling(alg, sm) && AllSeeSelected(alg, passes)
    requires !SeesSelected(alg, last) && |later| == alg.off + 1
    ensures InputsAtSomeCycle(alg, RunPass(alg, RunPasses(alg, sm, passes), last), later)
  {
    DrivesWhileSeenSelected(alg, sm, passes);
    UnseenPassReleases(alg, RunPasses(alg, sm, passes), last, later);
  }

  predicate AllSeeSelected(alg: Alg, passes: seq<Pass>)
    requires alg.ServeCs2?
  {
    forall i :: 0 <= i < |passes| ==> SeesSelected(alg, passes[i])
  }

  lemma LastSeen(alg: Alg, passes: seq<Pass>)
    requires alg.ServeCs2? && passes != []
    ensures AllSeeSelected(alg, passes)
       <==> AllSeeSelected(alg, passes[..|passes| - 1]) && SeesSelected(alg, passes[|passes| - 1])
  {
    assert forall i :: 0 <= i < |passes| - 1 ==> passes[..|passes| - 1][i] == passes[i];
  }

  // The state after n cycles with the pins held.
  function Held(alg: Alg, sm: Sm, pins: Pins, n: nat): (end: Sm)
    requires sm.pc < Length(alg)
    ensures end.pc < Length(alg)
  {
    Run(ServeProgram(alg), sm, seq(n, _ => pins))
  }

  lemma HeldMore(alg: Alg, sm: Sm, pins: Pins, n: nat)
    requires sm.pc < Length(alg)
    ensures Held(alg, sm, pins, 0) == sm
    ensures Held(alg, sm, pins, n + 1) == Step(ServeProgram(alg), Held(alg, sm, pins, n), pins)
  {
    assert seq(n + 1, _ => pins)[..n] == seq(n, _ => pins);
  }

  lemma {:induction false} DelayPasses(alg: Alg, sm: Sm, pins: Pins, n: nat, d: nat)
    requires sm.pc < Length(alg) && Held(alg, sm, pins, n).delay >= d
    ensures Held(alg, sm, pins, n + d)
         == Held(alg, sm, pins, n).(delay := Held(alg, sm, pins, n).delay - d)
  {
    if d > 0 {
      DelayPasses(alg, sm, pins, n, d - 1);
      HeldMore(alg, sm, pins, n + d - 1);
    }
  }

  lemma SelectionNoticed(alg: Alg, x: nat, pins: Pins)
    requires alg.ServeCs2? && SelectedPins(alg, pins)
    ensures Ready(alg, Held(alg, Fresh(x, alg.pattern), pins, 4), if alg.on > 0 then OnDelay else Enable)
  {
    var sm := Fresh(x, alg.pattern);
    HeldMore(alg, sm, pins, 0);
    ReleaseStep(alg, sm, pins);
    HeldMore(alg, sm, pins, 1);
    PollStep(alg, Held(alg, sm, pins, 1), pins);
    HeldMore(alg, sm, pins, 2);
    SampleStep(alg, Held(alg, sm, pins, 2), pins);
    HeldMore(alg, sm, pins, 3);
    WaitStep(alg, Held(alg, sm, pins, 3), pins);
  }

  // From its start, AlgCs2 is driving and polling once it has been selected for on + 5 cycles.
  lemma PollingIsReached(alg: Alg, x: nat, pins: Pins)
    requires alg.ServeCs2? && SelectedPins(alg, pins)
    ensures Polling(alg, Held(alg, Fresh(x, alg.pattern), pins, alg.on + 5))
  {
    var sm := Fresh(x, alg.pattern);
    SelectionNoticed(alg, x, pins);
    if alg.on > 0 {
      OnDelayStep(alg, Held(alg, sm, pins, 4), pins);
      HeldMore(alg, sm, pins, 4);
      DelayPasses(alg, sm, pins, 5, alg.on - 1);
    }
    EnableStep(alg, Held(alg, sm, pins, alg.on + 4), pins);
    HeldMore(alg, sm, pins, alg.on + 4);
  }

  // So being deselected for one reason and then the other does not release it.  Started, and
  // selected for as long as it takes to drive, it goes on driving for as long as these passes go
  // on, no cycle of which selects the chip.
  lemma {:induction false} AlternatingDeselectionDrives(alg: Alg, x: nat, pins: Pins, passes: seq<Pass>)
    requires alg.ServeCs2? && SelectedPins(alg, pins)
    requires forall i :: 0 <= i < |passes| ==>
      passes[i] == Pass(Pins(alg.pattern, false), Pins(pins.field, true), Pins(alg.pattern, true))
    ensures forall i :: 0 <= i < |passes| ==>
      !SelectedPins(alg, passes[i].first) && !SelectedPins(alg, passes[i].second) && !SelectedPins(alg, passes[i].third)
    ensures DrivesThrough(alg, Held(alg, Fresh(x, alg.pattern), pins, alg.on + 5), passes)
  {
    PollingIsReached(alg, x, pins);
    assert AllSeeSelected(alg, passes);
    DrivesWhileSeenSelected(alg, Held(alg, Fresh(x, alg.pattern), pins, alg.on + 5), passes);
  }

  // ---------------------------------------------------------------------------------------------
  // Standby
  // ---------------------------------------------------------------------------------------------

  // The state machine that sets the data pins' direction, whether it runs, and the firmware's
  // standby flag.
  class DataOutput {
    const alg: Alg
    var sm: Sm
    var running: bool
    var standby: bool

    predicate Valid()
      reads this
    {
      && running == !standby
      && Preloaded(alg, sm) && Timed(alg, sm)
      && (running ==> Safe(alg, sm))
      && (standby ==> sm.dirs == 0)
    }

    // Serving starts in standby or not, as the flag already says.
    constructor (alg: Alg, x: nat, y: nat, standby: bool)
      requires Preloaded(alg, Fresh(x, y))
      ensures Valid() && this.alg == alg && this.standby == standby && sm == Fresh(x, y)
    {
      this.alg := alg;
      sm := Fresh(x, y);
      this.standby, running := standby, !standby;
    }

    // A cycle of the block's clock: a stopped state machine does nothing.
    method Cycle(pins: Pins)
      requires Valid()
      modifies this
      ensures Valid() && running == old(running) && standby == old(standby)
      ensures sm == if old(running) then Step(ServeProgram(alg), old(sm), pins) else old(sm)
    {
      if running {
        SafeStep(alg, sm, pins);
        TimedStep(alg, sm, pins);
        sm := Step(ServeProgram(alg), sm, pins);
      }
    }

    // The history is cleared where the program is started again, so what Valid says about having
    // been selected is about looks taken since then.
    method SetStandby(on: bool)
      requires Valid()
      modifies this
      ensures Valid() && standby == on
      ensures on == old(standby) ==> sm == old(sm)
      ensures on && !old(standby) ==> sm == old(sm).(dirs := 0)
      ensures !on && old(standby) ==> sm == old(sm).(pc := 0, looks := [], delay := 0)
    {
      if on == standby { return; }
      if on {
        running := false;
        sm := Effect(sm, MovPindirs(Null), Pins(0, false));
        standby := true;
      } else {
        sm := sm.(pc := 0, looks := [], delay := 0);
        running := true;
        standby := false;
      }
    }
  }
}

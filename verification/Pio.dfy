/** A cycle-level model of one RP2350 PIO state machine, for the instructions One ROM's programs use
    (RP2350 datasheet, section 11.4). */
module Pio {
  import opened Words

  datatype Cond = Always | XZero | XDec | YDec | XNotY | PinHigh

  // Sources of MOV PINDIRS.
  datatype DirSource = Null | NotNull | FromY

  datatype Op =
    | Jmp(cond: Cond, target: nat)
    | MovXPins
    | MovPindirs(source: DirSource)
    | SetY(value: nat)
    | IrqSet
    | InX(count: nat)
    | InPins(count: nat)
    | InNull(count: nat)
    | Pull
    | OutPins(count: nat)
    | OutNull(count: nat)
    | Nop

  datatype Instr = Instr(op: Op, delay: nat)

  function I(op: Op): Instr { Instr(op, 0) }

  // Execution goes from wrapTop to wrapBottom.
  datatype Program = Program(code: seq<Instr>, wrapBottom: nat, wrapTop: nat)

  // What a state machine reads in one cycle: its IN pins, as many as IN_COUNT lets through, and
  // its JMP pin.
  datatype Pins = Pins(field: nat, jmp: bool)

  // A look a state machine takes at its pins.
  datatype Look = Field(field: nat) | JmpPin(high: bool)

  // dirs has a bit set for each data pin that is an output.  The last three fields are history: the
  // looks taken, the words pushed and the IRQs raised.
  datatype Sm = Sm(pc: nat, x: nat, y: nat, isr: nat, isrCount: nat, dirs: nat, delay: nat,
                   looks: seq<Look>, pushed: seq<nat>, irqs: nat)

  function Decrement(x: nat): nat { if x == 0 then WORD - 1 else x - 1 }

  predicate Jumps(sm: Sm, cond: Cond, pins: Pins)
  {
    match cond
    case Always => true
    case XZero => sm.x == 0
    case XDec => sm.x != 0
    case YDec => sm.y != 0
    case XNotY => sm.x != sm.y
    case PinHigh => pins.jmp
  }

  // IN with the shift to the left and autopush at 32 bits.
  function ShiftIn(sm: Sm, count: nat, value: nat): Sm
  {
    var isr := (sm.isr * Pow2(count) + value % Pow2(count)) % WORD;
    if sm.isrCount + count >= 32 then sm.(isr := 0, isrCount := 0, pushed := sm.pushed + [isr])
    else sm.(isr := isr, isrCount := sm.isrCount + count)
  }

  // The effect of an instruction on everything but where execution goes on.  PULL and OUT are Out's.
  function Effect(sm: Sm, op: Op, pins: Pins): Sm
  {
    match op
    case Jmp(XDec, _) => sm.(x := Decrement(sm.x))
    case Jmp(YDec, _) => sm.(y := Decrement(sm.y))
    case Jmp(PinHigh, _) => sm.(looks := sm.looks + [JmpPin(pins.jmp)])
    case Jmp(_, _) => sm
    case MovXPins => sm.(x := pins.field, looks := sm.looks + [Field(pins.field)])
    case MovPindirs(Null) => sm.(dirs := 0)
    case MovPindirs(NotNull) => sm.(dirs := WORD - 1)
    case MovPindirs(FromY) => sm.(dirs := sm.y)
    case SetY(value) => sm.(y := value)
    case IrqSet => sm.(irqs := sm.irqs + 1)
    case InX(count) => ShiftIn(sm, count, sm.x)
    case InPins(count) => ShiftIn(sm, count, pins.field)
    case InNull(count) => ShiftIn(sm, count, 0)
    case _ => sm
  }

  function Step(program: Program, sm: Sm, pins: Pins): Sm
    requires sm.pc < |program.code|
  {
    if sm.delay > 0 then sm.(delay := sm.delay - 1)
    else
      var instr := program.code[sm.pc];
      var next := if instr.op.Jmp? && Jumps(sm, instr.op.cond, pins) then instr.op.target
                  else if sm.pc == program.wrapTop then program.wrapBottom
                  else sm.pc + 1;
      Effect(sm, instr.op, pins).(pc := next, delay := instr.delay)
  }

  // Execution stays inside the program.
  predicate Closed(program: Program)
  {
    && program.wrapBottom < |program.code|
    && |program.code| > 0
    && (forall i :: 0 <= i < |program.code| && program.code[i].op.Jmp? ==>
          program.code[i].op.target < |program.code|)
    && (program.wrapTop == |program.code| - 1
        || (program.code[|program.code| - 1].op.Jmp? && program.code[|program.code| - 1].op.cond == Always))
  }

  lemma StepStays(program: Program, sm: Sm, pins: Pins)
    requires Closed(program) && sm.pc < |program.code|
    ensures Step(program, sm, pins).pc < |program.code|
  {
    if sm.delay == 0 && program.code[sm.pc].op.Jmp? {
      assert program.code[sm.pc].op.target < |program.code|;
    }
  }

  // One cycle after another.
  function Run(program: Program, sm: Sm, history: seq<Pins>): (end: Sm)
    requires Closed(program) && sm.pc < |program.code|
    ensures end.pc < |program.code|
    decreases |history|
  {
    if history == [] then sm
    else
      var before := Run(program, sm, history[..|history| - 1]);
      StepStays(program, before, history[|history| - 1]);
      Step(program, before, history[|history| - 1])
  }

  lemma {:induction false} RunSplits(program: Program, sm: Sm, first: seq<Pins>, second: seq<Pins>)
    requires Closed(program) && sm.pc < |program.code|
    ensures Run(program, sm, first + second) == Run(program, Run(program, sm, first), second)
    decreases |second|
  {
    if second == [] {
      assert first + second == first;
    } else {
      var before := second[..|second| - 1];
      RunSplits(program, sm, first, before);
      assert (first + second)[..|first + second| - 1] == first + before;
    }
  }

  // A state machine that outputs: with the output shift register, the bits shifted out of it, the
  // TX FIFO and the level of each output pin.  The last field is history: the words taken from the
  // FIFO.
  datatype Out = Out(sm: Sm, osr: nat, shifted: nat, fifo: seq<nat>, pins: nat, taken: seq<nat>)

  function Load(o: Out): Out
    requires o.fifo != []
  {
    o.(osr := o.fifo[0], shifted := 0, fifo := o.fifo[1..], taken := o.taken + [o.fifo[0]])
  }

  // Autopull: once `threshold` bits have gone, the next word is loaded as soon as there is one.
  function Refill(o: Out, threshold: nat): Out
  {
    if o.shifted >= threshold && o.fifo != [] then Load(o) else o
  }

  // OUT with the shift to the right.
  function ShiftOut(o: Out, count: nat): Out { o.(osr := Shr(o.osr, count), shifted := o.shifted + count) }

  // One cycle, with autopull.  PULL passes where a word is loaded already, and waits where there is
  // none; OUT waits where the word is used up.
  function OutStep(program: Program, threshold: nat, o: Out, pins: Pins): Out
    requires o.sm.pc < |program.code|
  {
    var next := o.(sm := Step(program, o.sm, pins));
    if o.sm.delay > 0 then Refill(next, threshold)
    else
      match program.code[o.sm.pc].op
      case Pull => if o.shifted == 0 then next else if o.fifo != [] then Load(next) else o
      case OutPins(count) =>
        if o.shifted >= threshold then Refill(o, threshold)
        else Refill(ShiftOut(next, count).(pins := o.osr % Pow2(count)), threshold)
      case OutNull(count) =>
        if o.shifted >= threshold then Refill(o, threshold) else Refill(ShiftOut(next, count), threshold)
      case _ => Refill(next, threshold)
  }

  // A state machine about to start its program.
  function Fresh(x: nat, y: nat): Sm { Sm(0, x, y, 0, 0, 0, 0, [], [], 0) }
}

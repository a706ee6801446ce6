/** The program that turns the address pins into the address of a byte of the ROM table
    (firmware/src/piodma/piorom2.c). */
module AddressProgram {
  import opened Words
  import opened Pio

  datatype AddrAlg = AddrAlg(numRomTableBits: nat, numAddrPins: nat, delay: nat)
  {
    predicate Valid() { 0 < numAddrPins <= numRomTableBits < 32 }

    function PrefixBits(): nat requires Valid() { 32 - numRomTableBits }

    function ExtraBits(): nat requires Valid() { numRomTableBits - numAddrPins }

    // The cycles of one pass through the program.
    function Period(): nat requires Valid() { 2 + delay + ExtraBits() }
  }

  function AddrInstr(alg: AddrAlg, pc: nat): Instr
    requires alg.Valid()
  {
    if pc == 0 then Instr(InX(alg.PrefixBits()), alg.delay)
    else if pc == 1 then I(InPins(alg.numAddrPins))
    else I(InNull(1))
  }

  function AddrProgram(alg: AddrAlg): (program: Program)
    requires alg.Valid()
    ensures Closed(program) && |program.code| == 2 + alg.ExtraBits()
    ensures forall pc :: 0 <= pc < |program.code| ==> program.code[pc] == AddrInstr(alg, pc)
  {
    var n := 2 + alg.ExtraBits();
    var code := seq(n, pc requires 0 <= pc < n => AddrInstr(alg, pc));
    assert forall pc :: 0 <= pc < n ==> code[pc] == AddrInstr(alg, pc);
    Program(code, 0, n - 1)
  }

  method EmitAddr(alg: AddrAlg) returns (program: Program)
    requires alg.Valid()
    ensures program == AddrProgram(alg)
  {
    var extraAddrBits := alg.numRomTableBits - alg.numAddrPins;
    var code, wrapTop := [Instr(InX(32 - alg.numRomTableBits), alg.delay)], 0;
    if extraAddrBits == 0 {
      wrapTop := |code|;
    }
    code := code + [I(InPins(alg.numAddrPins))];
    var ii := extraAddrBits;
    while ii > 0
      invariant 0 <= ii <= extraAddrBits && |code| == 2 + extraAddrBits - ii
      invariant forall pc :: 0 <= pc < |code| ==> code[pc] == AddrInstr(alg, pc)
      invariant ii == 0 ==> wrapTop == |code| - 1
    {
      if ii == 1 {
        wrapTop := |code|;
      }
      code := code + [I(InNull(1))];
      ii := ii - 1;
    }
    program := Program(code, 0, wrapTop);
    assert program.code == AddrProgram(alg).code;
  }

  // Bits shifted in when execution is at pc.
  function Shifted(alg: AddrAlg, pc: nat): nat
    requires alg.Valid()
  {
    if pc == 0 then 0 else if pc == 1 then alg.PrefixBits() else alg.PrefixBits() + alg.numAddrPins + pc - 2
  }

  // The state machine is somewhere in its loop.  Nothing is said of what it has shifted in.
  predicate InLoop(alg: AddrAlg, sm: Sm)
    requires alg.Valid()
  {
    && sm.pc < 2 + alg.ExtraBits()
    && sm.isrCount == Shifted(alg, sm.pc)
    && sm.delay <= (if sm.pc == 1 then alg.delay else 0)
    && (sm.pc == 0 ==> sm.isr == 0)
  }

  // The prefix and the address pins, side by side.
  function Joined(alg: AddrAlg, x: nat, field: nat): nat
    requires alg.Valid()
  {
    x % Pow2(alg.PrefixBits()) * Pow2(alg.numAddrPins) + field % Pow2(alg.numAddrPins)
  }

  // What is shifted in at pc while X and the pins hold still.
  function Content(alg: AddrAlg, x: nat, field: nat, pc: nat): nat
    requires alg.Valid()
  {
    if pc == 0 then 0
    else if pc == 1 then x % Pow2(alg.PrefixBits())
    else Joined(alg, x, field) * Pow2(pc - 2)
  }

  // The word pushed by a pass.
  function TableAddr(alg: AddrAlg, x: nat, field: nat): nat
    requires alg.Valid()
  {
    Content(alg, x, field, 2 + alg.ExtraBits())
  }

  // What is shifted in is this pass's.
  predicate Settled(alg: AddrAlg, sm: Sm, field: nat)
    requires alg.Valid()
  {
    InLoop(alg, sm) && sm.isr == Content(alg, sm.x, field, sm.pc)
  }

  lemma JoinBound(high: nat, low: nat, a: nat, b: nat)
    requires high < Pow2(a) && low < Pow2(b)
    ensures high * Pow2(b) + low < Pow2(a + b)
  {
    MulMonotone(high + 1, Pow2(a), Pow2(b));
    MulSuccessor(high, Pow2(b));
    Pow2Adds(a, b);
  }

  lemma ContentBound(alg: AddrAlg, x: nat, field: nat, pc: nat)
    requires alg.Valid() && pc <= 2 + alg.ExtraBits()
    ensures Content(alg, x, field, pc) < Pow2(Shifted(alg, pc)) <= WORD
  {
    if pc >= 2 {
      JoinBound(x % Pow2(alg.PrefixBits()), field % Pow2(alg.numAddrPins), alg.PrefixBits(), alg.numAddrPins);
      JoinBound(Joined(alg, x, field), 0, alg.PrefixBits() + alg.numAddrPins, pc - 2);
    }
    Pow2Monotone(Shifted(alg, pc), 32);
    Pow2Values();
  }

  function Count(alg: AddrAlg, pc: nat): nat
    requires alg.Valid()
  {
    if pc == 0 then alg.PrefixBits() else if pc == 1 then alg.numAddrPins else 1
  }

  function Source(pc: nat, x: nat, field: nat): nat
  {
    if pc == 0 then x else if pc == 1 then field else 0
  }

  lemma NextPower(j: nat, k: nat)
    ensures j * Pow2(k) * 2 == j * Pow2(k + 1)
  {
    MulCommutes(j, Pow2(k + 1));
    MulTwice(Pow2(k), j);
    MulCommutes(j, Pow2(k));
  }

  lemma UnwrappedContent(alg: AddrAlg, x: nat, field: nat, pc: nat)
    requires alg.Valid()
    ensures Content(alg, x, field, pc) * Pow2(Count(alg, pc)) + Source(pc, x, field) % Pow2(Count(alg, pc))
         == Content(alg, x, field, pc + 1)
  {
    if pc == 1 {
      MulCommutes(Joined(alg, x, field), 1);
    } else if pc >= 2 {
      NextPower(Joined(alg, x, field), pc - 2);
      assert Pow2(1) == 2;
    }
  }

  // One IN adds the next part of the word, and nothing is lost off its top.
  lemma ContentGrows(alg: AddrAlg, x: nat, field: nat, pc: nat)
    requires alg.Valid() && pc < 2 + alg.ExtraBits()
    ensures (Content(alg, x, field, pc) * Pow2(Count(alg, pc)) + Source(pc, x, field) % Pow2(Count(alg, pc))) % WORD
         == Content(alg, x, field, pc + 1)
  {
    UnwrappedContent(alg, x, field, pc);
    ContentBound(alg, x, field, pc + 1);
  }

  // A cycle keeps a pass this pass's, and the word pushed at its end is the table address.
  lemma SettledStep(alg: AddrAlg, sm: Sm, pins: Pins)
    requires alg.Valid() && Settled(alg, sm, pins.field)
    ensures var next := Step(AddrProgram(alg), sm, pins);
      && Settled(alg, next, pins.field) && next.x == sm.x
      && next.pushed == if sm.pc == 1 + alg.ExtraBits() && sm.delay == 0
                        then sm.pushed + [TableAddr(alg, sm.x, pins.field)] else sm.pushed
  {
    if sm.delay == 0 {
      ContentGrows(alg, sm.x, pins.field, sm.pc);
    }
  }

  lemma InLoopStep(alg: AddrAlg, sm: Sm, pins: Pins)
    requires alg.Valid() && InLoop(alg, sm)
    ensures InLoop(alg, Step(AddrProgram(alg), sm, pins))
    ensures Step(AddrProgram(alg), sm, pins).x == sm.x
  {
  }

  // A cycle pushes at most one word, which ends a pass.
  lemma PushEndsPass(alg: AddrAlg, sm: Sm, pins: Pins)
    requires alg.Valid() && InLoop(alg, sm)
    ensures var next := Step(AddrProgram(alg), sm, pins);
      || next.pushed == sm.pushed
      || (next.pushed != [] && next.pushed == sm.pushed + [next.pushed[|next.pushed| - 1]]
          && Settled(alg, next, pins.field))
    ensures Step(AddrProgram(alg), sm, pins).pushed == sm.pushed <==> ToPush(alg, sm) != 1
  {
  }

  // Cycles until the next pass starts, and until the next push.
  function ToStart(alg: AddrAlg, sm: Sm): nat
    requires alg.Valid() && InLoop(alg, sm)
  {
    if sm.pc == 0 then 0 else sm.delay + 2 + alg.ExtraBits() - sm.pc
  }

  function ToPush(alg: AddrAlg, sm: Sm): nat
    requires alg.Valid() && InLoop(alg, sm)
  {
    if sm.pc == 0 then alg.Period() else ToStart(alg, sm)
  }

  lemma CountsDown(alg: AddrAlg, sm: Sm, pins: Pins)
    requires alg.Valid() && InLoop(alg, sm)
    ensures InLoop(alg, Step(AddrProgram(alg), sm, pins))
    ensures sm.pc != 0 ==> ToStart(alg, Step(AddrProgram(alg), sm, pins)) == ToStart(alg, sm) - 1
    ensures ToPush(alg, sm) > 1 ==> ToPush(alg, Step(AddrProgram(alg), sm, pins)) == ToPush(alg, sm) - 1
    ensures ToPush(alg, sm) == 1 <==> sm.pc == 1 + alg.ExtraBits() && sm.delay == 0
  {
  }

  predicate Steady(history: seq<Pins>, field: nat) { forall i :: 0 <= i < |history| ==> history[i].field == field }

  // The state after a steady history, from anywhere in the loop.
  lemma {:induction false} SettlesInOnePass(alg: AddrAlg, sm: Sm, history: seq<Pins>, field: nat)
    requires alg.Valid() && InLoop(alg, sm) && Steady(history, field)
    ensures var end := Run(AddrProgram(alg), sm, history);
      && InLoop(alg, end) && end.x == sm.x
      && (|history| < ToStart(alg, sm) ==> ToStart(alg, end) == ToStart(alg, sm) - |history|)
      && (|history| >= ToStart(alg, sm) ==> Settled(alg, end, field))
    decreases |history|
  {
    if history != [] {
      var before, pins := history[..|history| - 1], history[|history| - 1];
      SettlesInOnePass(alg, sm, before, field);
      var middle := Run(AddrProgram(alg), sm, before);
      InLoopStep(alg, middle, pins);
      CountsDown(alg, middle, pins);
      if Settled(alg, middle, field) {
        SettledStep(alg, middle, pins);
      }
    }
  }

  // From a settled state, the last word pushed is the table address once a push has come.
  lemma {:induction false} PushesInOnePass(alg: AddrAlg, sm: Sm, history: seq<Pins>, field: nat)
    requires alg.Valid() && Settled(alg, sm, field) && Steady(history, field)
    ensures var end := Run(AddrProgram(alg), sm, history);
      && Settled(alg, end, field) && end.x == sm.x
      && (|history| < ToPush(alg, sm) ==>
            ToPush(alg, end) == ToPush(alg, sm) - |history| && end.pushed == sm.pushed)
      && (|history| >= ToPush(alg, sm) ==>
            end.pushed != [] && end.pushed[|end.pushed| - 1] == TableAddr(alg, sm.x, field))
    decreases |history|
  {
    if history != [] {
      var before, pins := history[..|history| - 1], history[|history| - 1];
      PushesInOnePass(alg, sm, before, field);
      var middle := Run(AddrProgram(alg), sm, before);
      SettledStep(alg, middle, pins);
      CountsDown(alg, middle, pins);
    }
  }

  // Wherever the address program is, two passes with the pins held still are enough for the last
  // word it pushed, then and from then on, to be those pins' table address.
  lemma AddressReachesTable(alg: AddrAlg, sm: Sm, history: seq<Pins>, field: nat)
    requires alg.Valid() && InLoop(alg, sm) && Steady(history, field)
    requires |history| >= 2 * alg.Period()
    ensures var end := Run(AddrProgram(alg), sm, history);
            end.pushed != [] && end.pushed[|end.pushed| - 1] == TableAddr(alg, sm.x, field)
  {
    var first, second := history[..alg.Period()], history[alg.Period()..];
    assert history == first + second;
    RunSplits(AddrProgram(alg), sm, first, second);
    SettlesInOnePass(alg, sm, first, field);
    PushesInOnePass(alg, Run(AddrProgram(alg), sm, first), second, field);
  }
}

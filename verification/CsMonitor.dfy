/** The address monitor's chip-select programs: each raises the address IRQ once per debounced
    access (firmware/src/piodma/pioplugin.c). */
module CsMonitor {
  import opened Words
  import opened Pio

  const MONITOR_CS_SAMPLES: nat := 3

  // ---------------------------------------------------------------------------------------------
  // The reference detector
  // ---------------------------------------------------------------------------------------------

  // When a field of chip-select pins is active.
  datatype Select = AllLow | AnyHigh | LowExcept(ignored: nat)

  predicate Active(select: Select, look: Look)
  {
    look.Field? &&
    match select
    case AllLow => look.field == 0
    case AnyHigh => look.field != 0
    case LowExcept(ignored) => look.field == 0 || look.field == Pow2(ignored)
  }

  // Armed with a run of active samples, or fired with a run of inactive ones.
  datatype Detector = Armed(run: nat) | Fired(run: nat)

  function Detect(select: Select, on: nat, off: nat, looks: seq<Look>): Detector
    decreases |looks|
  {
    if looks == [] then Armed(0)
    else
      var active := Active(select, looks[|looks| - 1]);
      match Detect(select, on, off, looks[..|looks| - 1])
      case Armed(run) => if !active then Armed(0) else if run + 1 >= on then Fired(0) else Armed(run + 1)
      case Fired(run) => if active then Fired(0) else if run + 1 >= off then Armed(0) else Fired(run + 1)
  }

  // Sample i completes an access, or the release of one.
  predicate FiresAt(select: Select, on: nat, off: nat, looks: seq<Look>, i: nat)
    requires i < |looks|
  {
    Detect(select, on, off, looks[..i]).Armed? && Detect(select, on, off, looks[..i + 1]).Fired?
  }

  predicate RearmsAt(select: Select, on: nat, off: nat, looks: seq<Look>, i: nat)
    requires i < |looks|
  {
    Detect(select, on, off, looks[..i]).Fired? && Detect(select, on, off, looks[..i + 1]).Armed?
  }

  function Fires(select: Select, on: nat, off: nat, looks: seq<Look>): nat
    decreases |looks|
  {
    if looks == [] then 0
    else
      Fires(select, on, off, looks[..|looks| - 1]) +
      if Detect(select, on, off, looks[..|looks| - 1]).Armed? && Detect(select, on, off, looks).Fired? then 1 else 0
  }

  // Samples from up to to, all active or all inactive.
  predicate AllActive(select: Select, looks: seq<Look>, from: nat, to: nat)
    requires to <= |looks|
  {
    forall i :: from <= i < to ==> Active(select, looks[i])
  }

  predicate AllInactive(select: Select, looks: seq<Look>, from: nat, to: nat)
    requires to <= |looks|
  {
    forall i :: from <= i < to ==> !Active(select, looks[i])
  }

  // The run a detector holds is what the samples end with.
  lemma {:induction false} RunIsTail(select: Select, on: nat, off: nat, looks: seq<Look>, n: nat)
    requires on > 0 && off > 0 && n <= |looks|
    ensures match Detect(select, on, off, looks[..n])
            case Armed(run) => run < on && run <= n && AllActive(select, looks, n - run, n)
            case Fired(run) => run < off && run <= n && AllInactive(select, looks, n - run, n)
    decreases n
  {
    if n > 0 {
      RunIsTail(select, on, off, looks, n - 1);
      assert looks[..n][..n - 1] == looks[..n - 1];
    }
  }

  // An access is taken only when the armed detector's last `on` samples were active; it is
  // released only when the fired one's last `off` were not.
  lemma FiresOnRun(select: Select, on: nat, off: nat, looks: seq<Look>, i: nat)
    requires on > 0 && off > 0 && i < |looks|
    ensures FiresAt(select, on, off, looks, i) ==>
      i + 1 >= on && AllActive(select, looks, i + 1 - on, i + 1)
    ensures RearmsAt(select, on, off, looks, i) ==>
      i + 1 >= off && AllInactive(select, looks, i + 1 - off, i + 1)
  {
    RunIsTail(select, on, off, looks, i);
    assert looks[..i + 1][..i] == looks[..i];
  }

  // An armed detector holds all of the active samples last seen, and a fired one all of the
  // inactive ones.
  lemma {:induction false} TailIsRun(select: Select, on: nat, off: nat, looks: seq<Look>, n: nat, k: nat)
    requires on > 0 && off > 0 && k <= n <= |looks|
    ensures match Detect(select, on, off, looks[..n])
            case Armed(run) => AllActive(select, looks, n - k, n) ==> run >= k
            case Fired(run) => AllInactive(select, looks, n - k, n) ==> run >= k
    decreases k
  {
    if k > 0 {
      TailIsRun(select, on, off, looks, n - 1, k - 1);
      assert looks[..n][..n - 1] == looks[..n - 1];
    }
  }

  // An armed detector fires exactly when the last `on` samples are active, and a fired one re-arms
  // exactly when the last `off` are not.
  lemma FiresExactlyOnRun(select: Select, on: nat, off: nat, looks: seq<Look>, i: nat)
    requires on > 0 && off > 0 && i < |looks|
    ensures FiresAt(select, on, off, looks, i)
       <==> Detect(select, on, off, looks[..i]).Armed?
            && i + 1 >= on && AllActive(select, looks, i + 1 - on, i + 1)
    ensures RearmsAt(select, on, off, looks, i)
       <==> Detect(select, on, off, looks[..i]).Fired?
            && i + 1 >= off && AllInactive(select, looks, i + 1 - off, i + 1)
  {
    FiresOnRun(select, on, off, looks, i);
    RunIsTail(select, on, off, looks, i + 1);
    if i + 1 >= on { TailIsRun(select, on, off, looks, i + 1, on); }
    if i + 1 >= off { TailIsRun(select, on, off, looks, i + 1, off); }
  }

  // No access is missed: `on` active samples in a row, from a moment the detector is armed, fire it.
  lemma {:induction false} RunFires(select: Select, on: nat, off: nat, looks: seq<Look>, k: nat)
    requires on > 0 && off > 0 && k + on <= |looks|
    requires Detect(select, on, off, looks[..k]).Armed? && AllActive(select, looks, k, k + on)
    ensures exists i :: k <= i < k + on && FiresAt(select, on, off, looks, i)
  {
    var i := k;
    while i < k + on && Detect(select, on, off, looks[..i + 1]).Armed?
      invariant k <= i <= k + on
      invariant Detect(select, on, off, looks[..i]).Armed?
      invariant Detect(select, on, off, looks[..i]).run >= i - k
    {
      assert looks[..i + 1][..i] == looks[..i];
      i := i + 1;
    }
    RunIsTail(select, on, off, looks, i);
    assert FiresAt(select, on, off, looks, i);
  }

  // Nor is a release: `off` inactive samples in a row, while fired, arm it again.
  lemma {:induction false} QuietRearms(select: Select, on: nat, off: nat, looks: seq<Look>, k: nat)
    requires on > 0 && off > 0 && k + off <= |looks|
    requires Detect(select, on, off, looks[..k]).Fired? && AllInactive(select, looks, k, k + off)
    ensures exists i :: k <= i < k + off && RearmsAt(select, on, off, looks, i)
  {
    var i := k;
    while i < k + off && Detect(select, on, off, looks[..i + 1]).Fired?
      invariant k <= i <= k + off
      invariant Detect(select, on, off, looks[..i]).Fired?
      invariant Detect(select, on, off, looks[..i]).run >= i - k
    {
      assert looks[..i + 1][..i] == looks[..i];
      i := i + 1;
    }
    RunIsTail(select, on, off, looks, i);
    assert RearmsAt(select, on, off, looks, i);
  }

  // Between two accesses the chip select was inactive for `off` samples in a row.
  lemma {:induction false} OncePerAccess(select: Select, on: nat, off: nat, looks: seq<Look>, i: nat, j: nat)
    requires on > 0 && off > 0 && i < j < |looks|
    requires FiresAt(select, on, off, looks, i) && FiresAt(select, on, off, looks, j)
    ensures exists k :: i + off <= k < j && RearmsAt(select, on, off, looks, k)
                        && AllInactive(select, looks, k + 1 - off, k + 1)
  {
    var k := i + 1;
    assert looks[..k][..i] == looks[..i];
    while Detect(select, on, off, looks[..k + 1]).Fired?
      invariant i < k <= j
      invariant Detect(select, on, off, looks[..k]).Fired?
      invariant Detect(select, on, off, looks[..k]).run <= k - i - 1
      decreases j - k
    {
      assert looks[..k + 1][..k] == looks[..k];
      k := k + 1;
    }
    assert looks[..k + 1][..k] == looks[..k];
    assert RearmsAt(select, on, off, looks, k);
    FiresOnRun(select, on, off, looks, k);
    assert k < j;
  }

  // ---------------------------------------------------------------------------------------------
  // AlgCs0
  // ---------------------------------------------------------------------------------------------

  // The emitted instructions, labels resolved against the program's start.
  function Cs0Program(serveCsLow0: nat): Program
  {
    Program([I(SetY(MONITOR_CS_SAMPLES - 1)),
             I(MovXPins),
             I(Jmp(if serveCsLow0 == 0 then XDec else XZero, 0)),
             I(Jmp(YDec, 1)),
             I(IrqSet),
             I(SetY(MONITOR_CS_SAMPLES - 1)),
             I(MovXPins),
             I(Jmp(if serveCsLow0 == 0 then XZero else XDec, 5)),
             I(Jmp(YDec, 6))], 0, 8)
  }

  method EmitCs0(serveCsLow0: nat) returns (program: Program)
    ensures program == Cs0Program(serveCsLow0) && |program.code| == 9
  {
    var code: seq<Instr> := [];
    var wrapBottom := |code|;
    var inactive := |code|;
    code := code + [I(SetY(MONITOR_CS_SAMPLES - 1))];
    var arming := |code|;
    code := code + [I(MovXPins)];
    if serveCsLow0 == 0 {
      code := code + [I(Jmp(XDec, inactive))];
    } else {
      code := code + [I(Jmp(XZero, inactive))];
    }
    code := code + [I(Jmp(YDec, arming))];
    code := code + [I(IrqSet)];
    var active := |code|;
    code := code + [I(SetY(MONITOR_CS_SAMPLES - 1))];
    var releasing := |code|;
    code := code + [I(MovXPins)];
    if serveCsLow0 == 0 {
      code := code + [I(Jmp(XZero, active))];
    } else {
      code := code + [I(Jmp(XDec, active))];
    }
    var wrapTop := |code|;
    code := code + [I(Jmp(YDec, releasing))];
    return Program(code, wrapBottom, wrapTop);
  }

  function Cs0Select(serveCsLow0: nat): Select { if serveCsLow0 == 0 then AllLow else AnyHigh }

  function Last(looks: seq<Look>): Look
    requires looks != []
  {
    looks[|looks| - 1]
  }

  function Front(looks: seq<Look>): seq<Look>
    requires looks != []
  {
    looks[..|looks| - 1]
  }

  // The sample just taken is yet to be acted on, and before it the detector stood at `before`.
  predicate Pending(select: Select, on: nat, off: nat, sm: Sm, before: Detector)
  {
    && sm.looks != [] && Last(sm.looks) == Field(sm.x)
    && Detect(select, on, off, Front(sm.looks)) == before
    && sm.irqs == Fires(select, on, off, Front(sm.looks))
  }

  // The same, once the sample is known to be active or not and X no longer holds it.
  predicate Judged(select: Select, on: nat, off: nat, sm: Sm, before: Detector, active: bool)
  {
    && sm.looks != [] && Active(select, Last(sm.looks)) == active
    && Detect(select, on, off, Front(sm.looks)) == before
    && sm.irqs == Fires(select, on, off, Front(sm.looks))
  }

  // Every sample has been acted on.
  predicate Settled(select: Select, on: nat, off: nat, sm: Sm, now: Detector)
  {
    Detect(select, on, off, sm.looks) == now && sm.irqs == Fires(select, on, off, sm.looks)
  }

  // The IRQ is due.
  predicate Due(select: Select, on: nat, off: nat, sm: Sm)
  {
    Detect(select, on, off, sm.looks) == Fired(0) && sm.irqs + 1 == Fires(select, on, off, sm.looks)
  }

  predicate FollowsCs0(serveCsLow0: nat, sm: Sm)
  {
    var select := Cs0Select(serveCsLow0);
    && sm.delay == 0 && sm.pc < 9
    && match sm.pc
       case 0 => Settled(select, 3, 3, sm, Armed(0))
       case 1 => sm.y <= 2 && Settled(select, 3, 3, sm, Armed(2 - sm.y))
       case 2 => sm.y <= 2 && Pending(select, 3, 3, sm, Armed(2 - sm.y))
       case 3 => sm.y <= 2 && Judged(select, 3, 3, sm, Armed(2 - sm.y), true)
       case 4 => Due(select, 3, 3, sm)
       case 5 => Settled(select, 3, 3, sm, Fired(0))
       case 6 => sm.y <= 2 && Settled(select, 3, 3, sm, Fired(2 - sm.y))
       case 7 => sm.y <= 2 && Pending(select, 3, 3, sm, Fired(2 - sm.y))
       case _ => sm.y <= 2 && Judged(select, 3, 3, sm, Fired(2 - sm.y), false)
  }

  lemma Cs0Step(serveCsLow0: nat, sm: Sm, pins: Pins)
    requires FollowsCs0(serveCsLow0, sm)
    ensures FollowsCs0(serveCsLow0, Step(Cs0Program(serveCsLow0), sm, pins))
  {
    var next := Step(Cs0Program(serveCsLow0), sm, pins);
    if sm.pc == 1 || sm.pc == 6 {
      assert Front(next.looks) == sm.looks;
    }
  }

  lemma {:induction false} Cs0Follows(serveCsLow0: nat, x: nat, y: nat, history: seq<Pins>)
    ensures FollowsCs0(serveCsLow0, Run(Cs0Program(serveCsLow0), Fresh(x, y), history))
    decreases |history|
  {
    if history != [] {
      Cs0Follows(serveCsLow0, x, y, history[..|history| - 1]);
      Cs0Step(serveCsLow0, Run(Cs0Program(serveCsLow0), Fresh(x, y), history[..|history| - 1]),
              history[|history| - 1]);
    }
  }

  // For every pin history the AlgCs0 monitor raises the IRQ once per access of the reference
  // detector, three samples on and three off, and has raised it by the time it samples again.
  lemma Cs0RaisesOncePerAccess(serveCsLow0: nat, x: nat, y: nat, history: seq<Pins>)
    ensures var program := Cs0Program(serveCsLow0);
            var end := Run(program, Fresh(x, y), history);
            var fires := Fires(Cs0Select(serveCsLow0), 3, 3, end.looks);
            && (end.irqs == fires || end.irqs + 1 == fires)
            && (program.code[end.pc].op == MovXPins ==> end.irqs == fires)
  {
    Cs0Follows(serveCsLow0, x, y, history);
  }

  // ---------------------------------------------------------------------------------------------
  // AlgCs1
  // ---------------------------------------------------------------------------------------------

  function Cs1Program(): Program
  {
    Program([I(MovXPins), I(Jmp(XZero, 3)), I(Jmp(XNotY, 0)),
             I(MovXPins), I(Jmp(XZero, 6)), I(Jmp(XNotY, 0)),
             I(MovXPins), I(Jmp(XZero, 9)), I(Jmp(XNotY, 0)),
             I(MovXPins), I(Jmp(XZero, 12)), I(Jmp(XNotY, 0)),
             I(IrqSet),
             I(MovXPins), I(Jmp(XZero, 13)), I(Jmp(XNotY, 17)), I(Jmp(Always, 13)),
             I(MovXPins), I(Jmp(XZero, 13)), I(Jmp(XNotY, 0))], 13, 19)
  }

  method EmitCs1() returns (program: Program)
    ensures program == Cs1Program() && |program.code| == 20
  {
    var code: seq<Instr> := [];
    var inactive := |code|;
    code := code + [I(MovXPins)];
    var check2 := |code| + 2;
    code := code + [I(Jmp(XZero, check2)), I(Jmp(XNotY, inactive)), I(MovXPins)];
    var check3 := |code| + 2;
    code := code + [I(Jmp(XZero, check3)), I(Jmp(XNotY, inactive)), I(MovXPins)];
    var check4 := |code| + 2;
    code := code + [I(Jmp(XZero, check4)), I(Jmp(XNotY, inactive)), I(MovXPins)];
    var active := |code| + 2;
    code := code + [I(Jmp(XZero, active)), I(Jmp(XNotY, inactive)), I(IrqSet)];
    var wrapBottom := |code|;
    var testIfInactive := |code|;
    code := code + [I(MovXPins), I(Jmp(XZero, testIfInactive))];
    var releasing := |code| + 2;
    code := code + [I(Jmp(XNotY, releasing)), I(Jmp(Always, testIfInactive)),
                    I(MovXPins), I(Jmp(XZero, testIfInactive))];
    var wrapTop := |code|;
    code := code + [I(Jmp(XNotY, inactive))];
    return Program(code, wrapBottom, wrapTop);
  }

  predicate FollowsCs1(ignored: nat, sm: Sm)
  {
    var select := LowExcept(ignored);
    && sm.delay == 0 && sm.pc < 20 && sm.y == Pow2(ignored)
    && if sm.pc < 12 then
         var before := Armed(sm.pc / 3);
         if sm.pc % 3 == 0 then Settled(select, 4, 2, sm, before)
         else Pending(select, 4, 2, sm, before) && (sm.pc % 3 == 2 ==> sm.x != 0)
       else match sm.pc
         case 12 => Due(select, 4, 2, sm)
         case 13 => Settled(select, 4, 2, sm, Fired(0))
         case 14 => Pending(select, 4, 2, sm, Fired(0))
         case 15 => Pending(select, 4, 2, sm, Fired(0)) && sm.x != 0
         case 16 => Settled(select, 4, 2, sm, Fired(0))
         case 17 => Settled(select, 4, 2, sm, Fired(1))
         case 18 => Pending(select, 4, 2, sm, Fired(1))
         case _ => Pending(select, 4, 2, sm, Fired(1)) && sm.x != 0
  }

  lemma Cs1StepSample(ignored: nat, sm: Sm, pins: Pins)
    requires FollowsCs1(ignored, sm) && sm.pc in {0, 3, 6, 9}
    ensures FollowsCs1(ignored, Step(Cs1Program(), sm, pins))
  {
    assert Front(Step(Cs1Program(), sm, pins).looks) == sm.looks;
  }

  lemma Cs1StepZero(ignored: nat, sm: Sm, pins: Pins)
    requires FollowsCs1(ignored, sm) && sm.pc in {1, 4, 7, 10}
    ensures FollowsCs1(ignored, Step(Cs1Program(), sm, pins))
  {
  }

  lemma Cs1StepIgnored(ignored: nat, sm: Sm, pins: Pins)
    requires FollowsCs1(ignored, sm) && sm.pc in {2, 5, 8, 11}
    ensures FollowsCs1(ignored, Step(Cs1Program(), sm, pins))
  {
  }

  lemma Cs1StepHolding(ignored: nat, sm: Sm, pins: Pins)
    requires FollowsCs1(ignored, sm) && sm.pc >= 12
    ensures FollowsCs1(ignored, Step(Cs1Program(), sm, pins))
  {
    if sm.pc == 13 || sm.pc == 17 {
      assert Front(Step(Cs1Program(), sm, pins).looks) == sm.looks;
    }
  }

  lemma Cs1Step(ignored: nat, sm: Sm, pins: Pins)
    requires FollowsCs1(ignored, sm)
    ensures FollowsCs1(ignored, Step(Cs1Program(), sm, pins))
  {
    if sm.pc >= 12 {
      Cs1StepHolding(ignored, sm, pins);
    } else if sm.pc in {0, 3, 6, 9} {
      Cs1StepSample(ignored, sm, pins);
    } else if sm.pc in {1, 4, 7, 10} {
      Cs1StepZero(ignored, sm, pins);
    } else {
      Cs1StepIgnored(ignored, sm, pins);
    }
  }

  lemma {:induction false} Cs1Follows(ignored: nat, x: nat, history: seq<Pins>)
    ensures FollowsCs1(ignored, Run(Cs1Program(), Fresh(x, Pow2(ignored)), history))
    decreases |history|
  {
    if history != [] {
      Cs1Follows(ignored, x, history[..|history| - 1]);
      Cs1Step(ignored, Run(Cs1Program(), Fresh(x, Pow2(ignored)), history[..|history| - 1]),
              history[|history| - 1]);
    }
  }

  // The AlgCs1 monitor, with Y preloaded to the ignored pin's mask: four samples on, two off.
  lemma Cs1RaisesOncePerAccess(ignored: nat, x: nat, history: seq<Pins>)
    ensures var program := Cs1Program();
            var end := Run(program, Fresh(x, Pow2(ignored)), history);
            var fires := Fires(LowExcept(ignored), 4, 2, end.looks);
            && (end.irqs == fires || end.irqs + 1 == fires)
            && (program.code[end.pc].op == MovXPins ==> end.irqs == fires)
  {
    Cs1Follows(ignored, x, history);
  }

  predicate EachLow(field: nat, pins: nat)
  {
    forall i :: 0 <= i < pins ==> !Bit(field, i)
  }

  predicate EachLowExcept(field: nat, pins: nat, ignored: nat)
  {
    forall i :: 0 <= i < pins && i != ignored ==> !Bit(field, i)
  }

  // Reading zero or the ignored pin's mask alone is reading every other pin low.
  lemma LowExceptMeansOthersLow(ignored: nat, field: nat, pins: nat)
    requires ignored < pins && field < Pow2(pins)
    ensures Active(LowExcept(ignored), Field(field)) <==> EachLowExcept(field, pins, ignored)
  {
    SetBitOfZero(ignored);
    if Active(LowExcept(ignored), Field(field)) {
      forall i | 0 <= i < pins && i != ignored
        ensures !Bit(field, i)
      {
        ZeroHasNoBits(i);
        SetBitBits(0, ignored, i);
      }
    } else if EachLowExcept(field, pins, ignored) {
      var word := if Bit(field, ignored) then SetBit(0, ignored) else 0;
      forall i | 0 <= i < pins
        ensures Bit(field, i) <==> Bit(word, i)
      {
        ZeroHasNoBits(i);
        SetBitBits(0, ignored, i);
      }
      SetBitBound(0, ignored, pins);
      SameBits(field, word, pins);
    }
  }

  // AlgCs0's compares: no pin of the field high, or some pin.
  lemma AllLowMeansEachLow(field: nat, pins: nat)
    requires field < Pow2(pins)
    ensures Active(AllLow, Field(field)) <==> EachLow(field, pins)
    ensures Active(AnyHigh, Field(field)) <==> !EachLow(field, pins)
  {
    if field == 0 {
      forall i | 0 <= i < pins
        ensures !Bit(field, i)
      {
        ZeroHasNoBits(i);
      }
    } else if EachLow(field, pins) {
      forall i | 0 <= i < pins
        ensures Bit(field, i) <==> Bit(0, i)
      {
        ZeroHasNoBits(i);
      }
      SameBits(field, 0, pins);
    }
  }

  // ---------------------------------------------------------------------------------------------
  // AlgCs2
  // ---------------------------------------------------------------------------------------------

  function Cs2Program(): Program
  {
    Program([I(Jmp(PinHigh, 0)), I(Jmp(PinHigh, 0)), I(Jmp(PinHigh, 0)), I(Jmp(PinHigh, 0)),
             I(MovXPins), I(Jmp(XNotY, 7)), I(Jmp(Always, 0)),
             I(IrqSet),
             I(Jmp(PinHigh, 11)), I(MovXPins), I(Jmp(XNotY, 8)),
             I(Jmp(PinHigh, 0)), I(MovXPins), I(Jmp(XNotY, 8))], 0, 13)
  }

  method EmitCs2() returns (program: Program)
    ensures program == Cs2Program() && |program.code| == 14
  {
    var code: seq<Instr> := [];
    var wrapBottom := |code|;
    var inactive := |code|;
    code := code + [I(Jmp(PinHigh, inactive)), I(Jmp(PinHigh, inactive)),
                    I(Jmp(PinHigh, inactive)), I(Jmp(PinHigh, inactive)), I(MovXPins)];
    var active := |code| + 2;
    code := code + [I(Jmp(XNotY, active)), I(Jmp(Always, inactive)), I(IrqSet)];
    var activePoll := |code|;
    var releasing := |code| + 3;
    code := code + [I(Jmp(PinHigh, releasing)), I(MovXPins), I(Jmp(XNotY, activePoll)),
                    I(Jmp(PinHigh, inactive)), I(MovXPins)];
    var wrapTop := |code|;
    code := code + [I(Jmp(XNotY, activePoll))];
    return Program(code, wrapBottom, wrapTop);
  }

  // The enable has been seen low `lows` times running; or an access is held, perhaps with one
  // release already seen, and perhaps with the qualifiers about to be read.
  datatype Qualified = Arming(lows: nat) | Holding(released: bool) | Reading(released: bool)

  function NextQualified(pattern: nat, now: Qualified, look: Look): Qualified
  {
    match (now, look)
    case (Arming(lows), JmpPin(high)) => if high || lows >= 4 then Arming(0) else Arming(lows + 1)
    case (Arming(lows), Field(field)) => if lows == 4 && field != pattern then Holding(false) else Arming(0)
    case (Holding(released), JmpPin(high)) =>
      if !high then Reading(released) else if released then Arming(0) else Holding(true)
    case (Holding(_), Field(_)) => Arming(0)
    case (Reading(released), Field(field)) =>
      if field != pattern then Holding(false) else if released then Arming(0) else Holding(true)
    case (Reading(_), JmpPin(_)) => Arming(0)
  }

  function DetectQualified(pattern: nat, looks: seq<Look>): Qualified
    decreases |looks|
  {
    if looks == [] then Arming(0)
    else NextQualified(pattern, DetectQualified(pattern, Front(looks)), Last(looks))
  }

  lemma DetectQualifiedNext(pattern: nat, looks: seq<Look>, k: nat)
    requires k < |looks|
    ensures DetectQualified(pattern, looks[..k + 1])
         == NextQualified(pattern, DetectQualified(pattern, looks[..k]), looks[k])
  {
    assert Front(looks[..k + 1]) == looks[..k];
  }

  function QualifiedFires(pattern: nat, looks: seq<Look>): nat
    decreases |looks|
  {
    if looks == [] then 0
    else
      QualifiedFires(pattern, Front(looks)) +
      if DetectQualified(pattern, Front(looks)).Arming? && DetectQualified(pattern, looks).Holding? then 1 else 0
  }

  predicate QualifiedFiresAt(pattern: nat, looks: seq<Look>, i: nat)
    requires i < |looks|
  {
    DetectQualified(pattern, looks[..i]).Arming? && DetectQualified(pattern, looks[..i + 1]).Holding?
  }

  // A poll that found the access released ends at look i: the enable high, or low with the
  // qualifiers at the deselect pattern.  It began at PollStart.
  predicate ReleasedPoll(pattern: nat, looks: seq<Look>, i: nat)
    requires i < |looks|
  {
    looks[i] == JmpPin(true) || (looks[i] == Field(pattern) && i > 0 && looks[i - 1] == JmpPin(false))
  }

  function PollStart(looks: seq<Look>, i: nat): nat
    requires i < |looks|
  {
    if looks[i].Field? && i > 0 then i - 1 else i
  }

  // Two released polls running, the second ending at look i.
  predicate ConfirmedRelease(pattern: nat, looks: seq<Look>, i: nat)
    requires i < |looks|
  {
    && ReleasedPoll(pattern, looks, i)
    && PollStart(looks, i) > 0 && ReleasedPoll(pattern, looks, PollStart(looks, i) - 1)
  }

  predicate QualifiedRearmsAt(pattern: nat, looks: seq<Look>, i: nat)
    requires i < |looks|
  {
    !DetectQualified(pattern, looks[..i]).Arming? && DetectQualified(pattern, looks[..i + 1]).Arming?
  }

  // Looks of the kind the detector is waiting for, as the program always takes.
  predicate Orderly(pattern: nat, looks: seq<Look>)
  {
    forall i :: 0 <= i < |looks| ==>
      (looks[i].Field? <==>
         DetectQualified(pattern, looks[..i]) in {Arming(4), Reading(false), Reading(true)})
  }

  lemma {:induction false} QualifiedHistory(pattern: nat, looks: seq<Look>, n: nat)
    requires Orderly(pattern, looks) && n <= |looks|
    ensures match DetectQualified(pattern, looks[..n])
            case Arming(lows) => lows <= 4 && lows <= n && forall i :: n - lows <= i < n ==> looks[i] == JmpPin(false)
            case Holding(released) => released ==> n > 0 && ReleasedPoll(pattern, looks, n - 1)
            case Reading(released) =>
              && n > 0 && looks[n - 1] == JmpPin(false)
              && (released ==> n > 1 && ReleasedPoll(pattern, looks, n - 2))
    decreases n
  {
    if n > 0 {
      QualifiedHistory(pattern, looks, n - 1);
      assert Front(looks[..n]) == looks[..n - 1];
      assert Last(looks[..n]) == looks[n - 1];
    }
  }

  // An access is taken only on the enable low four looks running and then qualifiers other than
  // the deselect pattern; it is given up only on two released polls running.
  lemma QualifiedFiresOnRun(pattern: nat, looks: seq<Look>, i: nat)
    requires Orderly(pattern, looks) && i < |looks|
    ensures QualifiedFiresAt(pattern, looks, i) ==>
      && i >= 4 && (forall j :: i - 4 <= j < i ==> looks[j] == JmpPin(false))
      && looks[i].Field? && looks[i].field != pattern
    ensures QualifiedRearmsAt(pattern, looks, i) ==>
      ConfirmedRelease(pattern, looks, i)
  {
    QualifiedHistory(pattern, looks, i);
    assert Front(looks[..i + 1]) == looks[..i];
    assert Last(looks[..i + 1]) == looks[i];
  }

  // Between two accesses there was a release, confirmed by a second poll.
  lemma {:induction false} QualifiedOncePerAccess(pattern: nat, looks: seq<Look>, i: nat, j: nat)
    requires Orderly(pattern, looks) && i < j < |looks|
    requires QualifiedFiresAt(pattern, looks, i) && QualifiedFiresAt(pattern, looks, j)
    ensures exists k :: i < k < j && QualifiedRearmsAt(pattern, looks, k) && ConfirmedRelease(pattern, looks, k)
  {
    var k := i + 1;
    while !DetectQualified(pattern, looks[..k + 1]).Arming?
      invariant i < k <= j
      invariant !DetectQualified(pattern, looks[..k]).Arming?
      decreases j - k
    {
      k := k + 1;
    }
    assert QualifiedRearmsAt(pattern, looks, k);
    QualifiedFiresOnRun(pattern, looks, k);
  }

  // The poll that starts at k finds the access released, and how many looks it takes.
  predicate ReleasedFrom(pattern: nat, looks: seq<Look>, k: nat)
  {
    || (k < |looks| && looks[k] == JmpPin(true))
    || (k + 1 < |looks| && looks[k] == JmpPin(false) && looks[k + 1] == Field(pattern))
  }

  function ReleasedLength(looks: seq<Look>, k: nat): nat
    requires k < |looks|
  {
    if looks[k] == JmpPin(true) then 1 else 2
  }

  lemma ReleaseNoted(pattern: nat, looks: seq<Look>, k: nat)
    requires ReleasedFrom(pattern, looks, k) && DetectQualified(pattern, looks[..k]).Holding?
    ensures k + ReleasedLength(looks, k) <= |looks|
    ensures DetectQualified(pattern, looks[..k + ReleasedLength(looks, k)])
         == if DetectQualified(pattern, looks[..k]).released then Arming(0) else Holding(true)
  {
    DetectQualifiedNext(pattern, looks, k);
    if looks[k] == JmpPin(false) { DetectQualifiedNext(pattern, looks, k + 1); }
  }

  // No release is missed: two released polls in a row, while an access is held, arm it again.
  lemma QualifiedReleaseRearms(pattern: nat, looks: seq<Look>, k: nat)
    requires k <= |looks| && DetectQualified(pattern, looks[..k]) == Holding(false)
    requires ReleasedFrom(pattern, looks, k) && ReleasedFrom(pattern, looks, k + ReleasedLength(looks, k))
    ensures var second := k + ReleasedLength(looks, k);
      && second + ReleasedLength(looks, second) <= |looks|
      && DetectQualified(pattern, looks[..second + ReleasedLength(looks, second)]) == Arming(0)
  {
    ReleaseNoted(pattern, looks, k);
    ReleaseNoted(pattern, looks, k + ReleasedLength(looks, k));
  }

  // No access is missed: from fully disarmed, four low enables and a selected range fire it.
  lemma QualifiedRunFires(pattern: nat, looks: seq<Look>, k: nat)
    requires k + 5 <= |looks| && DetectQualified(pattern, looks[..k]) == Arming(0)
    requires forall j :: k <= j < k + 4 ==> looks[j] == JmpPin(false)
    requires looks[k + 4].Field? && looks[k + 4].field != pattern
    ensures QualifiedFiresAt(pattern, looks, k + 4)
  {
    for n := k to k + 4
      invariant DetectQualified(pattern, looks[..n]) == Arming(n - k)
    {
      DetectQualifiedNext(pattern, looks, n);
    }
    DetectQualifiedNext(pattern, looks, k + 4);
  }

  predicate QualifiedSettled(pattern: nat, sm: Sm, now: Qualified)
  {
    DetectQualified(pattern, sm.looks) == now && sm.irqs == QualifiedFires(pattern, sm.looks)
  }

  predicate QualifiedPending(pattern: nat, sm: Sm, before: Qualified)
  {
    && sm.looks != [] && Last(sm.looks) == Field(sm.x)
    && DetectQualified(pattern, Front(sm.looks)) == before
    && sm.irqs == QualifiedFires(pattern, Front(sm.looks))
  }

  predicate FollowsCs2(pattern: nat, sm: Sm)
  {
    && sm.delay == 0 && sm.pc < 14 && sm.y == pattern
    && if sm.pc <= 4 then QualifiedSettled(pattern, sm, Arming(sm.pc))
       else match sm.pc
         case 5 => QualifiedPending(pattern, sm, Arming(4))
         case 6 => QualifiedSettled(pattern, sm, Arming(0))
         case 7 => DetectQualified(pattern, sm.looks) == Holding(false)
                   && sm.irqs + 1 == QualifiedFires(pattern, sm.looks)
         case 8 => QualifiedSettled(pattern, sm, Holding(false))
         case 9 => QualifiedSettled(pattern, sm, Reading(false))
         case 10 => QualifiedPending(pattern, sm, Reading(false))
         case 11 => QualifiedSettled(pattern, sm, Holding(true))
         case 12 => QualifiedSettled(pattern, sm, Reading(true))
         case _ => QualifiedPending(pattern, sm, Reading(true))
  }

  lemma Cs2StepCounting(pattern: nat, sm: Sm, pins: Pins)
    requires FollowsCs2(pattern, sm) && sm.pc < 4
    ensures FollowsCs2(pattern, Step(Cs2Program(), sm, pins))
  {
    var next := Step(Cs2Program(), sm, pins);
    assert Front(next.looks) == sm.looks && Last(next.looks) == JmpPin(pins.jmp);
    assert DetectQualified(pattern, next.looks) == if pins.jmp then Arming(0) else Arming(sm.pc + 1);
    assert next.pc == if pins.jmp then 0 else sm.pc + 1;
    assert QualifiedFires(pattern, next.looks) == QualifiedFires(pattern, sm.looks);
  }

  lemma Cs2StepLooking(pattern: nat, sm: Sm, pins: Pins)
    requires FollowsCs2(pattern, sm) && sm.pc < 5
    ensures FollowsCs2(pattern, Step(Cs2Program(), sm, pins))
  {
    if sm.pc < 4 {
      Cs2StepCounting(pattern, sm, pins);
    } else {
      var next := Step(Cs2Program(), sm, pins);
      assert Front(next.looks) == sm.looks && Last(next.looks) == Field(next.x);
    }
  }

  lemma Cs2StepJudging(pattern: nat, sm: Sm, pins: Pins)
    requires FollowsCs2(pattern, sm) && 5 <= sm.pc < 7
    ensures FollowsCs2(pattern, Step(Cs2Program(), sm, pins))
  {
  }

  lemma Cs2StepHolding(pattern: nat, sm: Sm, pins: Pins)
    requires FollowsCs2(pattern, sm) && sm.pc >= 7
    ensures FollowsCs2(pattern, Step(Cs2Program(), sm, pins))
  {
    if sm.pc in {8, 9, 11, 12} {
      assert Front(Step(Cs2Program(), sm, pins).looks) == sm.looks;
    }
  }

  lemma Cs2Step(pattern: nat, sm: Sm, pins: Pins)
    requires FollowsCs2(pattern, sm)
    ensures FollowsCs2(pattern, Step(Cs2Program(), sm, pins))
  {
    if sm.pc < 5 {
      Cs2StepLooking(pattern, sm, pins);
    } else if sm.pc < 7 {
      Cs2StepJudging(pattern, sm, pins);
    } else {
      Cs2StepHolding(pattern, sm, pins);
    }
  }

  // The look the program takes is the one the detector is waiting for.
  lemma Cs2LooksOrderly(pattern: nat, sm: Sm, pins: Pins)
    requires FollowsCs2(pattern, sm) && Orderly(pattern, sm.looks)
    ensures Orderly(pattern, Step(Cs2Program(), sm, pins).looks)
  {
    var looks := Step(Cs2Program(), sm, pins).looks;
    if looks != sm.looks {
      assert looks[..|sm.looks|] == sm.looks;
      assert Last(looks).Field? <==> sm.pc in {4, 9, 12};
      OrderlyGrows(pattern, sm.looks, Last(looks));
      assert looks == sm.looks + [Last(looks)];
    }
  }

  lemma OrderlyGrows(pattern: nat, looks: seq<Look>, look: Look)
    requires Orderly(pattern, looks)
    requires look.Field? <==> DetectQualified(pattern, looks) in {Arming(4), Reading(false), Reading(true)}
    ensures Orderly(pattern, looks + [look])
  {
    var longer := looks + [look];
    forall i | 0 <= i < |longer|
      ensures longer[i].Field? <==>
        DetectQualified(pattern, longer[..i]) in {Arming(4), Reading(false), Reading(true)}
    {
      assert longer[..i] == looks[..i];
      if i == |looks| { assert looks[..i] == looks; }
    }
  }

  lemma {:induction false} Cs2Follows(pattern: nat, x: nat, history: seq<Pins>)
    ensures FollowsCs2(pattern, Run(Cs2Program(), Fresh(x, pattern), history))
    ensures Orderly(pattern, Run(Cs2Program(), Fresh(x, pattern), history).looks)
    decreases |history|
  {
    if history != [] {
      var before := Run(Cs2Program(), Fresh(x, pattern), history[..|history| - 1]);
      Cs2Follows(pattern, x, history[..|history| - 1]);
      Cs2Step(pattern, before, history[|history| - 1]);
      Cs2LooksOrderly(pattern, before, history[|history| - 1]);
    }
  }

  // The AlgCs2 monitor, with Y preloaded to the deselect pattern.
  lemma Cs2RaisesOncePerAccess(pattern: nat, x: nat, history: seq<Pins>)
    ensures var program := Cs2Program();
            var end := Run(program, Fresh(x, pattern), history);
            var fires := QualifiedFires(pattern, end.looks);
            && Orderly(pattern, end.looks)
            && (end.irqs == fires || end.irqs + 1 == fires)
            && (program.code[end.pc].op in {MovXPins, Jmp(PinHigh, 0), Jmp(PinHigh, 11)} ==> end.irqs == fires)
  {
    Cs2Follows(pattern, x, history);
  }
}

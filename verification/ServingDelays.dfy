/** What the select programs' delays and /BYTE promise: no sooner than the delays say, and no more of
    the bus than /BYTE allows (firmware/src/piodma/piorom2.c). */
module ServingDelays {
  import opened Words
  import opened Pio
  import opened Serving

  // ---------------------------------------------------------------------------------------------
  // No sooner than the active delay
  // ---------------------------------------------------------------------------------------------

  // The cycles at least until the data pins are outputs.
  function OnAtLeast(alg: Alg, sm: Sm): nat
    requires sm.pc < Length(alg)
  {
    if sm.dirs != 0 then 0
    else
      sm.delay + match LabelAt(alg, sm.pc)
                 case OnDelay => alg.on + 1
                 case ByteCheck => 1
                 case Enable => 1
                 case EnableLow => 1
                 case _ => alg.on + 2
  }

  lemma OnAtLeastDone(alg: Alg, at: Label, sm: Sm, pins: Pins)
    requires Has(alg, at) && SafeAt(alg, at, sm) && sm.dirs == 0
    requires at == OnDelay ==> alg.on > 0
    ensures at in {Enable, EnableLow} || Done(alg, at, sm, pins).dirs == 0
    ensures NextAt(alg, at, sm, pins) == OnDelay ==> alg.on > 0 && at in {Wait, Wait2}
    ensures NextAt(alg, at, sm, pins) in {ByteCheck, Enable, EnableLow} ==>
              at in {OnDelay, ByteCheck} || (alg.on == 0 && at in {Wait, Wait2})
  {
  }

  lemma OnAtLeastStep(alg: Alg, sm: Sm, pins: Pins)
    requires Safe(alg, sm)
    ensures Step(ServeProgram(alg), sm, pins).pc < Length(alg)
    ensures OnAtLeast(alg, Step(ServeProgram(alg), sm, pins)) + 1 >= OnAtLeast(alg, sm)
  {
    SafeStep(alg, sm, pins);
    if sm.delay == 0 && sm.dirs == 0 {
      StepLabel(alg, sm, pins);
      HasLabel(alg, sm.pc);
      LabelsPresent(alg, sm.pc);
      OnAtLeastDone(alg, LabelAt(alg, sm.pc), sm, pins);
      OnDelayLasts(alg, LabelAt(alg, sm.pc));
    }
  }

  lemma OnDelayLasts(alg: Alg, at: Label)
    ensures at == OnDelay && alg.on > 0 ==> InstrAt(alg, at).delay == alg.on - 1
  {
  }

  lemma {:induction false} OnAtLeastRun(alg: Alg, sm: Sm, history: seq<Pins>)
    requires Safe(alg, sm) && Timed(alg, sm)
    ensures OnAtLeast(alg, Run(ServeProgram(alg), sm, history)) + |history| >= OnAtLeast(alg, sm)
    decreases |history|
  {
    if history != [] {
      var before := history[..|history| - 1];
      OnAtLeastRun(alg, sm, before);
      SafeRun(alg, sm, before);
      OnAtLeastStep(alg, Run(ServeProgram(alg), sm, before), history[|history| - 1]);
    }
  }

  // Inputs, and no look yet that is to make them outputs.
  predicate Idle(alg: Alg, sm: Sm)
  {
    sm.pc < Length(alg) && sm.dirs == 0 && LabelAt(alg, sm.pc) !in {OnDelay, ByteCheck, Enable, EnableLow}
  }

  // Whatever the pins do, an idle program makes them outputs no sooner than the active delay and two
  // cycles from then.
  lemma WaitsForActiveDelay(alg: Alg, sm: Sm, history: seq<Pins>)
    requires Safe(alg, sm) && Timed(alg, sm) && Idle(alg, sm)
    requires Run(ServeProgram(alg), sm, history).dirs != 0
    ensures |history| >= alg.on + 2
  {
    OnAtLeastRun(alg, sm, history);
  }

  // ---------------------------------------------------------------------------------------------
  // No sooner than the inactive delay
  // ---------------------------------------------------------------------------------------------

  // The cycles at least until the data pins are inputs.
  function OffAtLeast(alg: Alg, sm: Sm): nat
    requires sm.pc < Length(alg)
  {
    if sm.dirs == 0 then 0
    else
      sm.delay + match LabelAt(alg, sm.pc)
                 case OffDelay => alg.off + 1
                 case Release => 1
                 case _ => alg.off + 2
  }

  // The chip's pins release it only by a look at the select field: always for AlgCs0, and for
  // AlgCs2 while its enable is low.
  predicate ReleasesByField(alg: Alg, pins: Pins) { alg.ServeCs0? || (alg.ServeCs2? && !pins.jmp) }

  lemma OffAtLeastDone(alg: Alg, at: Label, sm: Sm, pins: Pins)
    requires Has(alg, at) && SafeAt(alg, at, sm) && sm.dirs != 0 && ReleasesByField(alg, pins)
    requires at == OffDelay ==> alg.off > 0
    ensures at == Release || Done(alg, at, sm, pins).dirs != 0
    ensures NextAt(alg, at, sm, pins) == OffDelay ==> alg.off > 0 && at == Judge
    ensures NextAt(alg, at, sm, pins) == Release ==> at == OffDelay || (alg.off == 0 && at == Judge)
  {
  }

  lemma OffDelayLasts(alg: Alg, at: Label)
    ensures at == OffDelay && alg.off > 0 ==> InstrAt(alg, at).delay == alg.off - 1
  {
  }

  lemma OffAtLeastStep(alg: Alg, sm: Sm, pins: Pins)
    requires Safe(alg, sm) && ReleasesByField(alg, pins)
    ensures Step(ServeProgram(alg), sm, pins).pc < Length(alg)
    ensures OffAtLeast(alg, Step(ServeProgram(alg), sm, pins)) + 1 >= OffAtLeast(alg, sm)
  {
    SafeStep(alg, sm, pins);
    if sm.delay == 0 && sm.dirs != 0 {
      StepLabel(alg, sm, pins);
      HasLabel(alg, sm.pc);
      LabelsPresent(alg, sm.pc);
      OffAtLeastDone(alg, LabelAt(alg, sm.pc), sm, pins);
      OffDelayLasts(alg, LabelAt(alg, sm.pc));
    }
  }

  lemma {:induction false} OffAtLeastRun(alg: Alg, sm: Sm, history: seq<Pins>)
    requires Safe(alg, sm) && Timed(alg, sm)
    requires forall i :: 0 <= i < |history| ==> ReleasesByField(alg, history[i])
    ensures OffAtLeast(alg, Run(ServeProgram(alg), sm, history)) + |history| >= OffAtLeast(alg, sm)
    decreases |history|
  {
    if history != [] {
      var before := history[..|history| - 1];
      OffAtLeastRun(alg, sm, before);
      SafeRun(alg, sm, before);
      OffAtLeastStep(alg, Run(ServeProgram(alg), sm, before), history[|history| - 1]);
    }
  }

  // Outputs, and no look yet that is to make them inputs.
  predicate Busy(alg: Alg, sm: Sm)
  {
    sm.pc < Length(alg) && sm.dirs != 0 && LabelAt(alg, sm.pc) !in {OffDelay, Release}
  }

  // A program that drives makes its pins inputs no sooner than the inactive delay and two cycles
  // from then.
  lemma WaitsForInactiveDelay(alg: Alg, sm: Sm, history: seq<Pins>)
    requires Safe(alg, sm) && Timed(alg, sm) && Busy(alg, sm)
    requires forall i :: 0 <= i < |history| ==> ReleasesByField(alg, history[i])
    requires Run(ServeProgram(alg), sm, history).dirs == 0
    ensures |history| >= alg.off + 2
  {
    OffAtLeastRun(alg, sm, history);
  }

  // ---------------------------------------------------------------------------------------------
  // No more of the bus than /BYTE allows
  // ---------------------------------------------------------------------------------------------

  // Either all inputs or D0-D7 outputs alone, with D8-D15 not about to follow.
  predicate HalfWidth(alg: Alg, sm: Sm)
  {
    sm.pc < Length(alg) && sm.dirs in {0, 0xFF} && LabelAt(alg, sm.pc) != Enable
  }

  lemma HalfWidthDone(alg: Alg, at: Label, sm: Sm, pins: Pins)
    requires alg.ServeCs0? && alg.hasByte && pins.jmp && sm.y == 0xFF
    requires Has(alg, at) && at != Enable && sm.dirs in {0, 0xFF}
    requires at == OnDelay ==> alg.on > 0
    ensures Done(alg, at, sm, pins).dirs in {0, 0xFF} && NextAt(alg, at, sm, pins) != Enable
  {
  }

  lemma HalfWidthStep(alg: Alg, sm: Sm, pins: Pins)
    requires alg.ServeCs0? && alg.hasByte && pins.jmp && Safe(alg, sm) && HalfWidth(alg, sm)
    ensures HalfWidth(alg, Step(ServeProgram(alg), sm, pins))
  {
    if sm.delay == 0 {
      StepLabel(alg, sm, pins);
      HasLabel(alg, sm.pc);
      LabelsPresent(alg, sm.pc);
      HalfWidthDone(alg, LabelAt(alg, sm.pc), sm, pins);
    }
  }

  // While /BYTE is active, D8-D15 are never outputs.
  lemma {:induction false} HalfWidthRun(alg: Alg, sm: Sm, history: seq<Pins>)
    requires alg.ServeCs0? && alg.hasByte && Safe(alg, sm) && Timed(alg, sm) && HalfWidth(alg, sm)
    requires forall i :: 0 <= i < |history| ==> history[i].jmp
    ensures Run(ServeProgram(alg), sm, history).dirs in {0, 0xFF}
    ensures HalfWidth(alg, Run(ServeProgram(alg), sm, history))
    decreases |history|
  {
    if history != [] {
      var before := history[..|history| - 1];
      HalfWidthRun(alg, sm, before);
      SafeRun(alg, sm, before);
      HalfWidthStep(alg, Run(ServeProgram(alg), sm, before), history[|history| - 1]);
    }
  }
}

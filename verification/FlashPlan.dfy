/** The order in which flash is erased and written to program an image file
    (rust/app/src/flash.rs), run on NOR flash. */
module FlashPlan {
  import opened Options
  import opened Words

  const SECTOR_SIZE: nat := 4096
  const BLANK: nat := 0xFF

  // The addresses from start up to end.
  datatype Range = Range(start: nat, end: nat)
  {
    predicate Valid() { start <= end <= WORD && (end - start) % SECTOR_SIZE == 0 }

    function Len(): nat requires Valid() { end - start }

    predicate Has(a: nat) { start <= a < end }
  }

  // Chips of whole sectors that do not overlap.
  datatype FlashChips = FlashChips(first: Range, second: Option<Range>)
  {
    predicate Valid()
    {
      && first.Valid()
      && (second.Some? ==>
            second.value.Valid() && (first.end <= second.value.start || second.value.end <= first.start))
    }
  }

  datatype FlashStep = Erase(addr: nat, len: nat) | Write(addr: nat, data: seq<nat>)
  {
    function Len(): nat { if Erase? then len else |data| }

    predicate Touches(a: nat) { addr <= a < addr + Len() }
  }

  datatype Result = Plan(steps: seq<FlashStep>) | SecondChipRequired | TooLarge

  // len rounded up to whole sectors.
  function Sectors(len: nat): nat { (len + SECTOR_SIZE - 1) / SECTOR_SIZE * SECTOR_SIZE }

  function New(image: seq<nat>, chips: FlashChips): Result
    requires chips.Valid()
  {
    var first := chips.first;
    if |image| <= first.Len() then
      Plan([Erase(first.start, Sectors(|image|)), Write(first.start, image)])
    else if chips.second.None? then SecondChipRequired
    else
      var second := chips.second.value;
      if |image| > first.Len() + second.Len() then TooLarge
      else
        var firstData, secondData := image[..first.Len()], image[first.Len()..];
        Plan([Erase(first.start, first.end - first.start),
              Erase(second.start, Sectors(|secondData|)),
              Write(second.start, secondData),
              Write(first.start, firstData)])
  }

  // ---------------------------------------------------------------------------------------------
  // NOR flash
  // ---------------------------------------------------------------------------------------------

  // The byte at each address.
  type Flash = nat -> nat

  // A step's effect on the byte at an address.  Erasing sets every bit, and writing can only clear
  // bits.
  function After(step: FlashStep, a: nat, byte: nat): nat
  {
    if !step.Touches(a) then byte
    else
      match step
      case Erase(_, _) => BLANK
      case Write(addr, data) => And(byte, data[a - addr])
  }

  // The byte at an address once the first k steps have run.
  function Run(steps: seq<FlashStep>, flash: Flash, k: nat, a: nat): nat
    requires k <= |steps|
  {
    if k == 0 then flash(a) else After(steps[k - 1], a, Run(steps, flash, k - 1, a))
  }

  // A run that stopped while step k was under way, or, with k the number of steps, at the end.
  // What the step was to change can be anything.
  ghost predicate Interrupted(steps: seq<FlashStep>, flash: Flash, k: nat, during: Flash)
  {
    && k <= |steps|
    && forall a: nat :: (k < |steps| ==> !steps[k].Touches(a)) ==> during(a) == Run(steps, flash, k, a)
  }

  // ---------------------------------------------------------------------------------------------
  // What a plan does
  // ---------------------------------------------------------------------------------------------

  predicate Bytes(image: seq<nat>) { forall i :: 0 <= i < |image| ==> image[i] < 256 }

  // Where byte i of an image belongs.
  function Home(chips: FlashChips, i: nat): nat
    requires chips.Valid()
  {
    if i < chips.first.Len() || chips.second.None? then chips.first.start + i
    else chips.second.value.start + (i - chips.first.Len())
  }

  // The size of the board's flash.
  function Capacity(chips: FlashChips): nat
    requires chips.Valid()
  {
    chips.first.Len() + if chips.second.Some? then chips.second.value.Len() else 0
  }

  // A plan is refused exactly when the image does not fit, and the error says which chip is short.
  lemma PlannedIffFits(image: seq<nat>, chips: FlashChips)
    requires chips.Valid()
    ensures New(image, chips).Plan? <==> |image| <= Capacity(chips)
    ensures New(image, chips).SecondChipRequired? <==> |image| > Capacity(chips) && chips.second.None?
  {
  }

  lemma SectorsFit(len: nat, room: nat)
    requires len <= room && room % SECTOR_SIZE == 0
    ensures len <= Sectors(len) <= room && Sectors(len) % SECTOR_SIZE == 0
    ensures Sectors(len) < len + SECTOR_SIZE
  {
  }

  lemma {:induction false} AndOnes(n: nat, b: nat)
    requires b < Pow2(n)
    ensures And(Pow2(n) - 1, b) == b
  {
    if n != 0 {
      var ones := Pow2(n - 1) - 1;
      assert Pow2(n) - 1 == 2 * ones + 1;
      Halves(Pow2(n) - 1, ones, 1);
      AndOnes(n - 1, b / 2);
    }
  }

  lemma WriteToBlank(b: nat)
    requires b < 256
    ensures And(BLANK, b) == b
  {
    assert Pow2(8) == 256;
    AndOnes(8, b);
  }

  // A step starts where a chip does, and stays inside it.  Erases are of whole sectors.
  predicate InChip(step: FlashStep, chip: Range)
  {
    && step.addr == chip.start && step.addr + step.Len() <= chip.end
    && (step.Erase? ==> step.len % SECTOR_SIZE == 0)
  }

  predicate StepFits(chips: FlashChips, step: FlashStep)
  {
    InChip(step, chips.first) || (chips.second.Some? && InChip(step, chips.second.value))
  }

  // Every step stays inside one chip.
  lemma StepsFit(image: seq<nat>, chips: FlashChips)
    requires chips.Valid() && New(image, chips).Plan?
    ensures forall k :: 0 <= k < |New(image, chips).steps| ==> StepFits(chips, New(image, chips).steps[k])
  {
    if |image| <= chips.first.Len() {
      SectorsFit(|image|, chips.first.Len());
    } else {
      SectorsFit(|image| - chips.first.Len(), chips.second.value.Len());
    }
  }

  // Each write finds nothing but blank bytes.
  ghost predicate WritesBlank(steps: seq<FlashStep>, flash: Flash)
  {
    forall k, a: nat :: 0 <= k < |steps| && steps[k].Write? && steps[k].Touches(a) ==>
      Run(steps, flash, k, a) == BLANK
  }

  // What is where when a plan of two steps or four has run.
  predicate Erased(steps: seq<FlashStep>, a: nat)
  {
    exists k :: 0 <= k < |steps| && steps[k].Erase? && steps[k].Touches(a)
  }

  // The byte after each number of steps.
  lemma RunOneChip(image: seq<nat>, chips: FlashChips, flash: Flash, a: nat)
    requires chips.Valid() && |image| <= chips.first.Len()
    ensures var steps := New(image, chips).steps;
      && |steps| == 2
      && Run(steps, flash, 0, a) == flash(a)
      && Run(steps, flash, 1, a) == After(steps[0], a, flash(a))
      && Run(steps, flash, 2, a) == After(steps[1], a, After(steps[0], a, flash(a)))
      && (steps[1].Touches(a) ==> steps[0].Touches(a))
  {
    SectorsFit(|image|, chips.first.Len());
  }

  lemma RunTwoChips(image: seq<nat>, chips: FlashChips, flash: Flash, a: nat)
    requires chips.Valid() && |image| > chips.first.Len() && New(image, chips).Plan?
    ensures var steps := New(image, chips).steps;
      && |steps| == 4
      && Run(steps, flash, 0, a) == flash(a)
      && Run(steps, flash, 1, a) == (if chips.first.Has(a) then BLANK else flash(a))
      && Run(steps, flash, 2, a) == (if chips.first.Has(a) || steps[1].Touches(a) then BLANK else flash(a))
      && Run(steps, flash, 3, a) == After(steps[2], a, Run(steps, flash, 2, a))
      && Run(steps, flash, 4, a) == After(steps[3], a, Run(steps, flash, 3, a))
      && (steps[2].Touches(a) ==> chips.second.value.Has(a) && steps[1].Touches(a))
      && (steps[3].Touches(a) ==> chips.first.Has(a))
  {
    SectorsFit(|image| - chips.first.Len(), chips.second.value.Len());
  }

  lemma WritesFindBlank(image: seq<nat>, chips: FlashChips, flash: Flash)
    requires chips.Valid() && New(image, chips).Plan?
    ensures WritesBlank(New(image, chips).steps, flash)
  {
    var steps := New(image, chips).steps;
    forall k, a: nat | 0 <= k < |steps| && steps[k].Write? && steps[k].Touches(a)
      ensures Run(steps, flash, k, a) == BLANK
    {
      if |image| <= chips.first.Len() {
        RunOneChip(image, chips, flash, a);
      } else {
        RunTwoChips(image, chips, flash, a);
      }
    }
  }

  // The byte a plan leaves at an address.
  function Final(image: seq<nat>, chips: FlashChips, flash: Flash, a: nat): nat
    requires chips.Valid() && New(image, chips).Plan?
  {
    Run(New(image, chips).steps, flash, |New(image, chips).steps|, a)
  }

  // The step that writes byte i of the image is the only one to write there.
  lemma WrittenOnce(image: seq<nat>, chips: FlashChips, i: nat)
    requires chips.Valid() && New(image, chips).Plan? && i < |image|
    ensures var steps, a := New(image, chips).steps, Home(chips, i);
      var k := if |image| <= chips.first.Len() then 1 else if i < chips.first.Len() then 3 else 2;
      && k < |steps| && steps[k].Write? && steps[k].Touches(a) && steps[k].data[a - steps[k].addr] == image[i]
      && (k == 2 ==> !steps[3].Touches(a))
      && (k == 3 ==> !steps[2].Touches(a))
  {
    if |image| > chips.first.Len() {
      SectorsFit(|image| - chips.first.Len(), chips.second.value.Len());
    }
  }

  lemma OneChipInPlace(image: seq<nat>, chips: FlashChips, flash: Flash, i: nat)
    requires chips.Valid() && Bytes(image) && i < |image| <= chips.first.Len()
    ensures Final(image, chips, flash, Home(chips, i)) == image[i]
  {
    WrittenOnce(image, chips, i);
    WriteToBlank(image[i]);
    RunOneChip(image, chips, flash, Home(chips, i));
  }

  lemma FirstPartInPlace(image: seq<nat>, chips: FlashChips, flash: Flash, i: nat)
    requires chips.Valid() && Bytes(image) && New(image, chips).Plan? && i < chips.first.Len() < |image|
    ensures Final(image, chips, flash, Home(chips, i)) == image[i]
  {
    WrittenOnce(image, chips, i);
    WriteToBlank(image[i]);
    RunTwoChips(image, chips, flash, Home(chips, i));
  }

  lemma SecondPartInPlace(image: seq<nat>, chips: FlashChips, flash: Flash, i: nat)
    requires chips.Valid() && Bytes(image) && New(image, chips).Plan? && chips.first.Len() <= i < |image|
    ensures var steps := New(image, chips).steps;
      && |steps| == 4 && !steps[3].Touches(Home(chips, i))
      && Run(steps, flash, 3, Home(chips, i)) == Run(steps, flash, 4, Home(chips, i)) == image[i]
  {
    WrittenOnce(image, chips, i);
    WriteToBlank(image[i]);
    RunTwoChips(image, chips, flash, Home(chips, i));
  }

  // A plan run to its end leaves every byte of the image at its home.
  lemma ImageInPlace(image: seq<nat>, chips: FlashChips, flash: Flash, i: nat)
    requires chips.Valid() && Bytes(image) && New(image, chips).Plan? && i < |image|
    ensures Final(image, chips, flash, Home(chips, i)) == image[i]
  {
    if |image| <= chips.first.Len() {
      OneChipInPlace(image, chips, flash, i);
    } else if i < chips.first.Len() {
      FirstPartInPlace(image, chips, flash, i);
    } else {
      SecondPartInPlace(image, chips, flash, i);
    }
  }

  // Some byte of the image belongs at a.
  predicate Homed(image: seq<nat>, chips: FlashChips, a: nat)
    requires chips.Valid()
  {
    exists i :: 0 <= i < |image| && Home(chips, i) == a
  }

  lemma WrittenIsHomed(image: seq<nat>, chips: FlashChips, k: nat, a: nat)
    requires chips.Valid() && New(image, chips).Plan? && k < |New(image, chips).steps|
    requires New(image, chips).steps[k].Write? && New(image, chips).steps[k].Touches(a)
    ensures Homed(image, chips, a)
  {
    var offset := a - New(image, chips).steps[k].addr;
    if k == 2 {
      assert Home(chips, offset + chips.first.Len()) == a;
    } else {
      assert Home(chips, offset) == a;
    }
  }

  // Nothing changes but the image's bytes and the rest of the sectors erased for them, which are
  // left blank.
  lemma RestUnchanged(image: seq<nat>, chips: FlashChips, flash: Flash, a: nat)
    requires chips.Valid() && New(image, chips).Plan? && !Homed(image, chips, a)
    ensures Final(image, chips, flash, a)
         == if Erased(New(image, chips).steps, a) then BLANK else flash(a)
  {
    var steps := New(image, chips).steps;
    forall k | 0 <= k < |steps| && steps[k].Write?
      ensures !steps[k].Touches(a)
    {
      if steps[k].Touches(a) { WrittenIsHomed(image, chips, k, a); }
    }
    assert steps[0].Touches(a) ==> Erased(steps, a);
    if |image| <= chips.first.Len() {
      RunOneChip(image, chips, flash, a);
    } else {
      assert steps[1].Touches(a) ==> Erased(steps, a);
      RunTwoChips(image, chips, flash, a);
    }
  }

  // ---------------------------------------------------------------------------------------------
  // Interruption
  // ---------------------------------------------------------------------------------------------

  ghost predicate SecondUntouched(chips: FlashChips, flash: Flash, during: Flash)
    requires chips.second.Some?
  {
    forall a: nat :: chips.second.value.Has(a) ==> during(a) == flash(a)
  }

  ghost predicate FirstBlank(chips: FlashChips, during: Flash)
  {
    forall a: nat :: chips.first.Has(a) ==> during(a) == BLANK
  }

  ghost predicate SecondWritten(image: seq<nat>, chips: FlashChips, during: Flash)
    requires chips.Valid() && chips.second.Some?
  {
    forall i :: chips.first.Len() <= i < |image| ==> during(Home(chips, i)) == image[i]
  }

  lemma UntouchedInFirstStep(image: seq<nat>, chips: FlashChips, flash: Flash, during: Flash)
    requires chips.Valid() && New(image, chips).Plan? && |image| > chips.first.Len()
    requires Interrupted(New(image, chips).steps, flash, 0, during)
    ensures SecondUntouched(chips, flash, during)
  {
    forall a: nat | chips.second.value.Has(a)
      ensures during(a) == flash(a)
    {
      RunTwoChips(image, chips, flash, a);
    }
  }

  lemma BlankInMiddleSteps(image: seq<nat>, chips: FlashChips, flash: Flash, k: nat, during: Flash)
    requires chips.Valid() && New(image, chips).Plan? && |image| > chips.first.Len() && 1 <= k <= 2
    requires Interrupted(New(image, chips).steps, flash, k, during)
    ensures FirstBlank(chips, during)
  {
    forall a: nat | chips.first.Has(a)
      ensures during(a) == BLANK
    {
      SecondStepsElsewhere(image, chips, a);
      RunTwoChips(image, chips, flash, a);
    }
  }

  lemma SecondStepsElsewhere(image: seq<nat>, chips: FlashChips, a: nat)
    requires chips.Valid() && New(image, chips).Plan? && |image| > chips.first.Len() && chips.first.Has(a)
    ensures var steps := New(image, chips).steps;
      |steps| == 4 && !steps[1].Touches(a) && !steps[2].Touches(a)
  {
    SectorsFit(|image| - chips.first.Len(), chips.second.value.Len());
  }

  lemma WrittenByLastStep(image: seq<nat>, chips: FlashChips, flash: Flash, k: nat, during: Flash)
    requires chips.Valid() && Bytes(image) && New(image, chips).Plan? && |image| > chips.first.Len() && k >= 3
    requires Interrupted(New(image, chips).steps, flash, k, during)
    ensures SecondWritten(image, chips, during)
  {
    forall i | chips.first.Len() <= i < |image|
      ensures during(Home(chips, i)) == image[i]
    {
      SecondPartInPlace(image, chips, flash, i);
    }
  }

  // Wherever a run of a two-chip plan stops, even within a step, the first chip does not hold
  // firmware beside a second chip that is partly another image's.
  lemma InterruptionIsSafe(image: seq<nat>, chips: FlashChips, flash: Flash, k: nat, during: Flash)
    requires chips.Valid() && Bytes(image) && New(image, chips).Plan? && |image| > chips.first.Len()
    requires Interrupted(New(image, chips).steps, flash, k, during)
    ensures k == 0 ==> SecondUntouched(chips, flash, during)
    ensures k == 1 || k == 2 ==> FirstBlank(chips, during)
    ensures k >= 3 ==> SecondWritten(image, chips, during)
    ensures SecondUntouched(chips, flash, during) || FirstBlank(chips, during)
            || SecondWritten(image, chips, during)
  {
    if k == 0 {
      UntouchedInFirstStep(image, chips, flash, during);
    } else if k <= 2 {
      BlankInMiddleSteps(image, chips, flash, k, during);
    } else {
      WrittenByLastStep(image, chips, flash, k, during);
    }
  }
}

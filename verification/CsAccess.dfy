/** The address monitor's chip-select programs over the pins themselves: how soon an access raises
    its IRQ, how soon its release is noticed, and one IRQ for each access
    (firmware/src/piodma/pioplugin.c). */
module CsAccess {
  import opened Words
  import opened Pio
  import opened CsMonitor

  datatype Monitor = Monitor0(serveCsLow0: nat) | Monitor1(ignored: nat) | Monitor2(pattern: nat)

  function MonitorProgram(m: Monitor): (program: Program)
    ensures Closed(program)
  {
    match m
    case Monitor0(serveCsLow0) => Cs0Program(serveCsLow0)
    case Monitor1(_) => Cs1Program()
    case Monitor2(_) => Cs2Program()
  }

  // About to start, with Y preloaded where the algorithm preloads it.
  function Started(m: Monitor, x: nat): Sm
  {
    match m
    case Monitor0(_) => Fresh(x, 0)
    case Monitor1(ignored) => Fresh(x, Pow2(ignored))
    case Monitor2(pattern) => Fresh(x, pattern)
  }

  // The chip is selected in a cycle.
  predicate Selected(m: Monitor, pins: Pins)
  {
    match m
    case Monitor0(serveCsLow0) => if serveCsLow0 == 0 then pins.field == 0 else pins.field != 0
    case Monitor1(ignored) => pins.field == 0 || pins.field == Pow2(ignored)
    case Monitor2(pattern) => !pins.jmp && pins.field != pattern
  }

  // Why it is not: for AlgCs2 the enable is high, or the qualifiers are at the deselect pattern.
  datatype Reason = ByEnable | ByRange

  predicate Deselected(m: Monitor, reason: Reason, pins: Pins)
  {
    match m
    case Monitor2(pattern) => if reason == ByEnable then pins.jmp else pins.field == pattern
    case _ => !Selected(m, pins)
  }

  // ---------------------------------------------------------------------------------------------
  // The detector and the program
  // ---------------------------------------------------------------------------------------------

  predicate Follows(m: Monitor, sm: Sm)
  {
    match m
    case Monitor0(serveCsLow0) => FollowsCs0(serveCsLow0, sm)
    case Monitor1(ignored) => FollowsCs1(ignored, sm)
    case Monitor2(pattern) => FollowsCs2(pattern, sm)
  }

  function On(m: Monitor): nat { if m.Monitor0? then 3 else 4 }

  function Off(m: Monitor): nat { if m.Monitor0? then 3 else 2 }

  function SelectOf(m: Monitor): Select
    requires !m.Monitor2?
  {
    match m
    case Monitor0(serveCsLow0) => Cs0Select(serveCsLow0)
    case Monitor1(ignored) => LowExcept(ignored)
  }

  // The detector waits for an access.
  predicate Arming(m: Monitor, looks: seq<Look>)
  {
    if m.Monitor2? then DetectQualified(m.pattern, looks).Arming?
    else Detect(SelectOf(m), On(m), Off(m), looks).Armed?
  }

  // The accesses it has found.
  function Found(m: Monitor, looks: seq<Look>): nat
  {
    if m.Monitor2? then QualifiedFires(m.pattern, looks) else Fires(SelectOf(m), On(m), Off(m), looks)
  }

  // And with the one that a select now begun will make.
  function FoundNext(m: Monitor, looks: seq<Look>): nat { Found(m, looks) + if Arming(m, looks) then 1 else 0 }

  lemma StepFollows(m: Monitor, sm: Sm, pins: Pins)
    requires Follows(m, sm)
    ensures sm.pc < |MonitorProgram(m).code| && Follows(m, Step(MonitorProgram(m), sm, pins))
  {
    match m {
      case Monitor0(serveCsLow0) => Cs0Step(serveCsLow0, sm, pins);
      case Monitor1(ignored) => Cs1Step(ignored, sm, pins);
      case Monitor2(pattern) => Cs2Step(pattern, sm, pins);
    }
  }

  // The look a cycle takes, if any.
  predicate Looks(m: Monitor, sm: Sm)
  {
    match m
    case Monitor0(_) => sm.pc in {1, 6}
    case Monitor1(_) => sm.pc in {0, 3, 6, 9, 13, 17}
    case Monitor2(_) => sm.pc in {0, 1, 2, 3, 4, 8, 9, 11, 12}
  }

  function LookAt(m: Monitor, sm: Sm, pins: Pins): Look
  {
    if m.Monitor2? && sm.pc in {0, 1, 2, 3, 8, 11} then JmpPin(pins.jmp) else Field(pins.field)
  }

  predicate Grown(m: Monitor, sm: Sm, pins: Pins, next: Sm)
  {
    next.looks == if Looks(m, sm) then sm.looks + [LookAt(m, sm, pins)] else sm.looks
  }

  lemma LooksGrow0(serveCsLow0: nat, sm: Sm, pins: Pins)
    requires sm.pc < 9 && sm.delay == 0
    ensures Grown(Monitor0(serveCsLow0), sm, pins, Step(Cs0Program(serveCsLow0), sm, pins))
  {
  }

  lemma LooksGrow1(ignored: nat, sm: Sm, pins: Pins)
    requires sm.pc < 20 && sm.delay == 0
    ensures Grown(Monitor1(ignored), sm, pins, Step(Cs1Program(), sm, pins))
  {
  }

  lemma LooksGrow2(pattern: nat, sm: Sm, pins: Pins)
    requires sm.pc < 14 && sm.delay == 0
    ensures Grown(Monitor2(pattern), sm, pins, Step(Cs2Program(), sm, pins))
  {
  }

  lemma LooksGrow(m: Monitor, sm: Sm, pins: Pins)
    requires Follows(m, sm)
    ensures sm.pc < |MonitorProgram(m).code|
    ensures Grown(m, sm, pins, Step(MonitorProgram(m), sm, pins))
  {
    match m {
      case Monitor0(serveCsLow0) => LooksGrow0(serveCsLow0, sm, pins);
      case Monitor1(ignored) => LooksGrow1(ignored, sm, pins);
      case Monitor2(pattern) => LooksGrow2(pattern, sm, pins);
    }
  }

  lemma DetectNext(m: Monitor, looks: seq<Look>, look: Look)
    requires !m.Monitor2?
    ensures Active(SelectOf(m), look) ==> FoundNext(m, looks + [look]) == FoundNext(m, looks)
    ensures !Active(SelectOf(m), look) ==> Found(m, looks + [look]) == Found(m, looks)
  {
    assert (looks + [look])[..|looks + [look]| - 1] == looks;
  }

  lemma QualifiedNext(pattern: nat, looks: seq<Look>, look: Look)
    ensures DetectQualified(pattern, looks + [look]) == NextQualified(pattern, DetectQualified(pattern, looks), look)
    ensures QualifiedFires(pattern, looks + [look])
         == QualifiedFires(pattern, looks)
            + if DetectQualified(pattern, looks).Arming? && DetectQualified(pattern, looks + [look]).Holding?
              then 1 else 0
  {
    assert Front(looks + [look]) == looks;
  }

  // ---------------------------------------------------------------------------------------------
  // How soon an access is found
  // ---------------------------------------------------------------------------------------------

  // What the program makes of X.
  predicate Reads(m: Monitor, x: nat)
  {
    match m
    case Monitor0(serveCsLow0) => if serveCsLow0 == 0 then x == 0 else x != 0
    case Monitor1(ignored) => x == 0 || x == Pow2(ignored)
    case Monitor2(pattern) => x != pattern
  }

  // The cycles until the IRQ has been raised, at most, while the chip is selected.
  function OnLeft(m: Monitor, sm: Sm): nat
  {
    match m
    case Monitor0(_) =>
      (match sm.pc
       case 0 => 11
       case 1 => 3 * sm.y + 4
       case 2 => if Reads(m, sm.x) then 3 * sm.y + 3 else 12
       case 3 => 3 * sm.y + 2
       case 4 => 1
       case 7 => if Reads(m, sm.x) || sm.y > 0 then 0 else 13
       case 8 => if sm.y > 0 then 0 else 12
       case _ => 0)
    case Monitor1(_) => OnLeft1(m, sm)
    case Monitor2(_) =>
      (match sm.pc
       case 5 => if Reads(m, sm.x) then 2 else 9
       case 6 => 8
       case 7 => 1
       case 13 => if Reads(m, sm.x) then 0 else 8
       case pc => if pc < 5 then 7 - pc else 0)
  }

  function OnLeft1(m: Monitor, sm: Sm): nat
  {
    if sm.pc < 12 then
      var k := sm.pc / 3;
      if sm.pc % 3 == 0 then 13 - 3 * k
      else if sm.pc % 3 == 1 then if Reads(m, sm.x) then 12 - 3 * k else 15
      else if Reads(m, sm.x) then 11 - 3 * k else 14
    else
      match sm.pc
      case 12 => 1
      case 18 => if Reads(m, sm.x) then 0 else 15
      case 19 => if Reads(m, sm.x) then 0 else 14
      case _ => 0
  }

  function OnLimit(m: Monitor): nat
  {
    match m
    case Monitor0(_) => 13
    case Monitor1(_) => 15
    case Monitor2(_) => 9
  }

  function Less(n: nat): nat { if n == 0 then 0 else n - 1 }

  lemma OnStep0(m: Monitor, sm: Sm, pins: Pins)
    requires m.Monitor0? && Follows(m, sm) && Selected(m, pins)
    ensures sm.pc < 9 && OnLeft(m, Step(Cs0Program(m.serveCsLow0), sm, pins)) <= Less(OnLeft(m, sm))
  {
  }

  lemma OnStep1(m: Monitor, sm: Sm, pins: Pins)
    requires m.Monitor1? && sm.pc < 20 && sm.delay == 0 && sm.y == Pow2(m.ignored) && Selected(m, pins)
    requires sm.pc < 12 && sm.pc % 3 == 2 ==> sm.x != 0
    requires sm.pc == 15 || sm.pc == 19 ==> sm.x != 0
    ensures OnLeft(m, Step(Cs1Program(), sm, pins)) <= Less(OnLeft(m, sm))
  {
  }

  lemma OnStep2(m: Monitor, sm: Sm, pins: Pins)
    requires m.Monitor2? && sm.pc < 14 && sm.delay == 0 && sm.y == m.pattern && Selected(m, pins)
    ensures OnLeft(m, Step(Cs2Program(), sm, pins)) <= Less(OnLeft(m, sm))
  {
  }

  lemma OnStep(m: Monitor, sm: Sm, pins: Pins)
    requires Follows(m, sm) && Selected(m, pins)
    ensures sm.pc < |MonitorProgram(m).code|
    ensures OnLeft(m, Step(MonitorProgram(m), sm, pins)) <= Less(OnLeft(m, sm))
  {
    match m {
      case Monitor0(_) => OnStep0(m, sm, pins);
      case Monitor1(_) => OnStep1(m, sm, pins);
      case Monitor2(_) => OnStep2(m, sm, pins);
    }
  }

  lemma OnWithin(m: Monitor, sm: Sm)
    requires Follows(m, sm)
    ensures OnLeft(m, sm) <= OnLimit(m)
  {
  }

  // Once there is none left, the access has been found and its IRQ raised.
  lemma RaisedOnceOn(m: Monitor, sm: Sm)
    requires Follows(m, sm) && OnLeft(m, sm) == 0
    ensures !Arming(m, sm.looks) && sm.irqs == Found(m, sm.looks)
  {
  }

  // ---------------------------------------------------------------------------------------------
  // How soon a release is noticed
  // ---------------------------------------------------------------------------------------------

  // The cycles until the detector waits for an access again, at most, while the chip is deselected.
  function OffLeft(m: Monitor, reason: Reason, sm: Sm): nat
  {
    match m
    case Monitor0(_) =>
      (match sm.pc
       case 2 => if Reads(m, sm.x) && sm.y == 0 then 13 else 0
       case 3 => if sm.y == 0 then 12 else 0
       case 4 => 11
       case 5 => 10
       case 6 => 3 * sm.y + 3
       case 7 => if Reads(m, sm.x) then 11 else 3 * sm.y + 2
       case 8 => 3 * sm.y + 1
       case _ => 0)
    case Monitor1(_) => OffLeft1(m, sm)
    case Monitor2(_) => if reason == ByEnable then OffLeftEnable(m, sm) else OffLeftRange(m, sm)
  }

  function OffLeft1(m: Monitor, sm: Sm): nat
  {
    match sm.pc
    case 10 => if Reads(m, sm.x) then 9 else 0
    case 11 => if Reads(m, sm.x) then 8 else 0
    case 12 => 7
    case 13 => 6
    case 14 => if Reads(m, sm.x) then 9 else 5
    case 15 => if Reads(m, sm.x) then 8 else 4
    case 16 => 7
    case 17 => 3
    case 18 => if Reads(m, sm.x) then 8 else 2
    case 19 => if Reads(m, sm.x) then 7 else 1
    case _ => 0
  }

  function OffLeftEnable(m: Monitor, sm: Sm): nat
  {
    match sm.pc
    case 4 => 5
    case 5 => if Reads(m, sm.x) then 4 else 0
    case 7 => 3
    case 8 => 2
    case 9 => 4
    case 10 => if Reads(m, sm.x) then 3 else 2
    case 11 => 1
    case 12 => 4
    case 13 => if Reads(m, sm.x) then 3 else 1
    case _ => 0
  }

  function OffLeftRange(m: Monitor, sm: Sm): nat
  {
    match sm.pc
    case 5 => if Reads(m, sm.x) then 8 else 0
    case 7 => 7
    case 8 => 6
    case 9 => 5
    case 10 => if Reads(m, sm.x) then 7 else 4
    case 11 => 3
    case 12 => 2
    case 13 => if Reads(m, sm.x) then 7 else 1
    case _ => 0
  }

  function OffLimit(m: Monitor): nat
  {
    match m
    case Monitor0(_) => 13
    case Monitor1(_) => 9
    case Monitor2(_) => 8
  }

  lemma OffStep0(m: Monitor, reason: Reason, sm: Sm, pins: Pins)
    requires m.Monitor0? && Follows(m, sm) && Deselected(m, reason, pins)
    ensures sm.pc < 9 && OffLeft(m, reason, Step(Cs0Program(m.serveCsLow0), sm, pins)) <= Less(OffLeft(m, reason, sm))
  {
  }

  lemma OffStep1(m: Monitor, reason: Reason, sm: Sm, pins: Pins)
    requires m.Monitor1? && sm.pc < 20 && sm.delay == 0 && sm.y == Pow2(m.ignored) && Deselected(m, reason, pins)
    requires sm.pc in {11, 15, 19} ==> sm.x != 0
    ensures OffLeft(m, reason, Step(Cs1Program(), sm, pins)) <= Less(OffLeft(m, reason, sm))
  {
  }

  lemma OffStep2(m: Monitor, reason: Reason, sm: Sm, pins: Pins)
    requires m.Monitor2? && sm.pc < 14 && sm.delay == 0 && sm.y == m.pattern && Deselected(m, reason, pins)
    ensures OffLeft(m, reason, Step(Cs2Program(), sm, pins)) <= Less(OffLeft(m, reason, sm))
  {
  }

  lemma OffStep(m: Monitor, reason: Reason, sm: Sm, pins: Pins)
    requires Follows(m, sm) && Deselected(m, reason, pins)
    ensures sm.pc < |MonitorProgram(m).code|
    ensures OffLeft(m, reason, Step(MonitorProgram(m), sm, pins)) <= Less(OffLeft(m, reason, sm))
  {
    match m {
      case Monitor0(_) => OffStep0(m, reason, sm, pins);
      case Monitor1(_) => OffStep1(m, reason, sm, pins);
      case Monitor2(_) => OffStep2(m, reason, sm, pins);
    }
  }

  lemma OffWithin(m: Monitor, reason: Reason, sm: Sm)
    requires Follows(m, sm)
    ensures OffLeft(m, reason, sm) <= OffLimit(m)
  {
  }

  lemma ArmedOnceOff(m: Monitor, reason: Reason, sm: Sm)
    requires Follows(m, sm) && OffLeft(m, reason, sm) == 0
    ensures Arming(m, sm.looks) && sm.irqs == Found(m, sm.looks)
  {
  }

  // ---------------------------------------------------------------------------------------------
  // What the pins come to
  // ---------------------------------------------------------------------------------------------

  // A cycle with the chip selected finds nothing but the access a select now begun makes.
  lemma SelectedKeeps(m: Monitor, sm: Sm, pins: Pins)
    requires Follows(m, sm) && Selected(m, pins)
    ensures sm.pc < |MonitorProgram(m).code|
    ensures FoundNext(m, Step(MonitorProgram(m), sm, pins).looks) == FoundNext(m, sm.looks)
  {
    LooksGrow(m, sm, pins);
    if Looks(m, sm) {
      if m.Monitor2? {
        QualifiedNext(m.pattern, sm.looks, LookAt(m, sm, pins));
      } else {
        DetectNext(m, sm.looks, LookAt(m, sm, pins));
      }
    }
  }

  // The AlgCs2 program has seen the enable low and is about to read the qualifiers.
  predicate AboutToFind(m: Monitor, reason: Reason, sm: Sm) { m.Monitor2? && reason == ByEnable && sm.pc == 4 }

  // A cycle with the chip deselected finds none.
  lemma DeselectedKeeps(m: Monitor, reason: Reason, sm: Sm, pins: Pins)
    requires Follows(m, sm) && Deselected(m, reason, pins) && !AboutToFind(m, reason, sm)
    ensures sm.pc < |MonitorProgram(m).code|
    ensures Found(m, Step(MonitorProgram(m), sm, pins).looks) == Found(m, sm.looks)
    ensures !AboutToFind(m, reason, Step(MonitorProgram(m), sm, pins))
  {
    LooksGrow(m, sm, pins);
    if m.Monitor2? {
      NotAboutToFind(m, sm, pins);
    }
    if Looks(m, sm) {
      if m.Monitor2? {
        QualifiedNext(m.pattern, sm.looks, LookAt(m, sm, pins));
      } else {
        DetectNext(m, sm.looks, LookAt(m, sm, pins));
      }
    }
  }

  lemma NotAboutToFind(m: Monitor, sm: Sm, pins: Pins)
    requires m.Monitor2? && sm.pc < 14 && sm.delay == 0
    ensures pins.jmp ==> Step(Cs2Program(), sm, pins).pc != 4
  {
  }

  predicate AllSelected(m: Monitor, history: seq<Pins>)
  {
    forall i :: 0 <= i < |history| ==> Selected(m, history[i])
  }

  predicate AllDeselected(m: Monitor, reason: Reason, history: seq<Pins>)
  {
    forall i :: 0 <= i < |history| ==> Deselected(m, reason, history[i])
  }

  // Where cycles selected lead, and where cycles deselected do.
  predicate Raised(m: Monitor, sm: Sm, found: nat, left: int)
  {
    && Follows(m, sm) && FoundNext(m, sm.looks) == found && (OnLeft(m, sm) == 0 || OnLeft(m, sm) <= left)
  }

  predicate Released(m: Monitor, reason: Reason, sm: Sm, found: nat, left: int)
  {
    && Follows(m, sm) && !AboutToFind(m, reason, sm) && Found(m, sm.looks) == found
    && (OffLeft(m, reason, sm) == 0 || OffLeft(m, reason, sm) <= left)
  }

  lemma RaisedStep(m: Monitor, sm: Sm, pins: Pins, found: nat, left: int)
    requires Raised(m, sm, found, left) && Selected(m, pins)
    ensures sm.pc < |MonitorProgram(m).code| && Raised(m, Step(MonitorProgram(m), sm, pins), found, left - 1)
  {
    StepFollows(m, sm, pins);
    SelectedKeeps(m, sm, pins);
    OnStep(m, sm, pins);
  }

  lemma ReleasedStep(m: Monitor, reason: Reason, sm: Sm, pins: Pins, found: nat, left: int)
    requires Released(m, reason, sm, found, left) && Deselected(m, reason, pins)
    ensures sm.pc < |MonitorProgram(m).code|
    ensures Released(m, reason, Step(MonitorProgram(m), sm, pins), found, left - 1)
  {
    StepFollows(m, sm, pins);
    DeselectedKeeps(m, reason, sm, pins);
    OffStep(m, reason, sm, pins);
  }

  lemma {:induction false} RaisedRun(m: Monitor, sm: Sm, history: seq<Pins>, found: nat, left: int)
    requires Raised(m, sm, found, left) && sm.pc < |MonitorProgram(m).code| && AllSelected(m, history)
    ensures Raised(m, Run(MonitorProgram(m), sm, history), found, left - |history|)
    decreases |history|
  {
    if history != [] {
      var before := history[..|history| - 1];
      RaisedRun(m, sm, before, found, left);
      RaisedStep(m, Run(MonitorProgram(m), sm, before), history[|history| - 1], found, left - |before|);
    }
  }

  lemma {:induction false} ReleasedRun(m: Monitor, reason: Reason, sm: Sm, history: seq<Pins>, found: nat, left: int)
    requires Released(m, reason, sm, found, left) && sm.pc < |MonitorProgram(m).code|
    requires AllDeselected(m, reason, history)
    ensures Released(m, reason, Run(MonitorProgram(m), sm, history), found, left - |history|)
    decreases |history|
  {
    if history != [] {
      var before := history[..|history| - 1];
      ReleasedRun(m, reason, sm, before, found, left);
      ReleasedStep(m, reason, Run(MonitorProgram(m), sm, before), history[|history| - 1], found, left - |before|);
    }
  }

  // From any state a program reaches, with the chip selected for a constant number of cycles, every
  // access found has had its IRQ: one more than before where the detector was waiting for one, and
  // no more for as long as the chip stays selected.
  lemma SelectRaisesOne(m: Monitor, sm: Sm, history: seq<Pins>)
    requires Follows(m, sm) && sm.pc < |MonitorProgram(m).code|
    requires AllSelected(m, history) && |history| >= OnLimit(m)
    ensures var end := Run(MonitorProgram(m), sm, history);
      && Follows(m, end) && !Arming(m, end.looks) && end.irqs == Found(m, end.looks)
      && end.irqs == Found(m, sm.looks) + if Arming(m, sm.looks) then 1 else 0
  {
    var end := Run(MonitorProgram(m), sm, history);
    OnWithin(m, sm);
    RaisedRun(m, sm, history, FoundNext(m, sm.looks), OnLimit(m));
    RaisedOnceOn(m, end);
  }

  // With it deselected for a constant number of cycles the detector waits for the next access, and
  // none has been found meanwhile.
  lemma DeselectRearms(m: Monitor, reason: Reason, sm: Sm, history: seq<Pins>)
    requires Follows(m, sm) && sm.pc < |MonitorProgram(m).code| && !AboutToFind(m, reason, sm)
    requires AllDeselected(m, reason, history) && |history| >= OffLimit(m)
    ensures var end := Run(MonitorProgram(m), sm, history);
      Follows(m, end) && Arming(m, end.looks) && end.irqs == Found(m, end.looks) == Found(m, sm.looks)
  {
    var end := Run(MonitorProgram(m), sm, history);
    OffWithin(m, reason, sm);
    ReleasedRun(m, reason, sm, history, Found(m, sm.looks), OffLimit(m));
    ArmedOnceOff(m, reason, end);
  }

  // A cycle finds one access at most.
  lemma CycleFindsOne(m: Monitor, sm: Sm, pins: Pins)
    requires Follows(m, sm) && m.Monitor2?
    ensures sm.pc < |MonitorProgram(m).code|
    ensures Found(m, sm.looks) <= Found(m, Step(MonitorProgram(m), sm, pins).looks) <= FoundNext(m, sm.looks)
  {
    LooksGrow(m, sm, pins);
    if Looks(m, sm) { QualifiedNext(m.pattern, sm.looks, LookAt(m, sm, pins)); }
  }

  // So it is from any state, but for the access the AlgCs2 program may be about to find.
  lemma DeselectAlwaysRearms(m: Monitor, reason: Reason, sm: Sm, history: seq<Pins>)
    requires Follows(m, sm) && sm.pc < |MonitorProgram(m).code|
    requires AllDeselected(m, reason, history) && |history| >= OffLimit(m) + 1
    ensures var end := Run(MonitorProgram(m), sm, history);
      && Follows(m, end) && Arming(m, end.looks)
      && Found(m, sm.looks) <= end.irqs
      && end.irqs <= (if AboutToFind(m, reason, sm) then FoundNext(m, sm.looks) else Found(m, sm.looks))
  {
    if AboutToFind(m, reason, sm) {
      var next := Step(MonitorProgram(m), sm, history[0]);
      StepFollows(m, sm, history[0]);
      CycleFindsOne(m, sm, history[0]);
      NotAboutToFind(m, sm, history[0]);
      assert history == history[..1] + history[1..] && history[..1][..0] == [];
      RunSplits(MonitorProgram(m), sm, history[..1], history[1..]);
      assert Run(MonitorProgram(m), sm, history[..1]) == next;
      DeselectRearms(m, reason, next, history[1..]);
    } else {
      DeselectRearms(m, reason, sm, history);
    }
  }

  // The states a program reaches.
  lemma ReachedFollows(m: Monitor, x: nat, history: seq<Pins>)
    ensures Started(m, x).pc < |MonitorProgram(m).code|
    ensures Follows(m, Run(MonitorProgram(m), Started(m, x), history))
  {
    match m {
      case Monitor0(serveCsLow0) => Cs0Follows(serveCsLow0, x, 0, history);
      case Monitor1(ignored) => Cs1Follows(ignored, x, history);
      case Monitor2(pattern) => Cs2Follows(pattern, x, history);
    }
  }

  // The chip deselected, for one reason, and then selected, each for long enough.
  datatype Access = Access(reason: Reason, quiet: seq<Pins>, held: seq<Pins>)

  predicate Proper(m: Monitor, access: Access)
  {
    && AllDeselected(m, access.reason, access.quiet) && |access.quiet| >= OffLimit(m)
    && AllSelected(m, access.held) && |access.held| >= OnLimit(m)
  }

  function AllPins(accesses: seq<Access>): seq<Pins>
  {
    if accesses == [] then []
    else
      var last := accesses[|accesses| - 1];
      AllPins(accesses[..|accesses| - 1]) + last.quiet + last.held
  }

  lemma StartFollows(m: Monitor, x: nat)
    ensures Follows(m, Started(m, x)) && Found(m, []) == 0 && Arming(m, [])
  {
  }

  // A program that has raised an IRQ for each of some accesses, and is about to find none.
  predicate Counted(m: Monitor, sm: Sm, count: nat)
  {
    && Follows(m, sm) && sm.pc < |MonitorProgram(m).code| && !AboutToFind(m, ByEnable, sm)
    && sm.irqs == Found(m, sm.looks) == count
  }

  lemma NotFoundAgain(m: Monitor, sm: Sm)
    requires Follows(m, sm) && !Arming(m, sm.looks)
    ensures !AboutToFind(m, ByEnable, sm) && sm.pc < |MonitorProgram(m).code|
  {
  }

  lemma OneMoreAccess(m: Monitor, sm: Sm, access: Access, count: nat)
    requires Counted(m, sm, count) && Proper(m, access)
    ensures Counted(m, Run(MonitorProgram(m), sm, access.quiet + access.held), count + 1)
  {
    var quiet := Run(MonitorProgram(m), sm, access.quiet);
    DeselectRearms(m, access.reason, sm, access.quiet);
    SelectRaisesOne(m, quiet, access.held);
    RunSplits(MonitorProgram(m), sm, access.quiet, access.held);
    NotFoundAgain(m, Run(MonitorProgram(m), quiet, access.held));
  }

  // Each monitor, from its start: an IRQ for every access, and only one.
  lemma {:induction false} OneIrqPerAccess(m: Monitor, x: nat, accesses: seq<Access>)
    requires forall i :: 0 <= i < |accesses| ==> Proper(m, accesses[i])
    ensures Started(m, x).pc < |MonitorProgram(m).code|
    ensures Run(MonitorProgram(m), Started(m, x), AllPins(accesses)).irqs == |accesses|
    ensures Counted(m, Run(MonitorProgram(m), Started(m, x), AllPins(accesses)), |accesses|)
    decreases |accesses|
  {
    StartFollows(m, x);
    if accesses != [] {
      var before, last := accesses[..|accesses| - 1], accesses[|accesses| - 1];
      OneIrqPerAccess(m, x, before);
      OneMoreAccess(m, Run(MonitorProgram(m), Started(m, x), AllPins(before)), last, |before|);
      RunSplits(MonitorProgram(m), Started(m, x), AllPins(before), last.quiet + last.held);
      assert AllPins(accesses) == AllPins(before) + (last.quiet + last.held);
    }
  }
}

/** The programs that put the words the DMA reads on the data pins
    (firmware/src/piodma/piorom2.c). */
module DataProgram {
  import opened Words
  import opened Pio

  // ALG_DATA_0, with its word size, and ALG_DATA_1, which reads /BYTE and A-1.
  datatype DataAlg = Data0(wordSize: nat) | Data1
  {
    predicate Valid() { Data0? ==> 0 < wordSize <= 16 }

    function Threshold(): nat { if Data0? then wordSize else 16 }
  }

  // What the host sees of a word: all of it, or its low or its high byte, with /BYTE active and
  // A-1 as it is.
  function Shown(alg: DataAlg, word: nat, pins: Pins): nat
  {
    match alg
    case Data0(wordSize) => word % Pow2(wordSize)
    case Data1 =>
      if !pins.jmp then word % Pow2(16)
      else if pins.field == 0 then word % Pow2(8)
      else Shr(word, 8) % Pow2(8)
  }

  function Data1Code(): seq<Instr>
  {
    [I(Pull), I(Jmp(PinHigh, 4)), I(OutPins(16)), I(Jmp(Always, 0)),
     I(MovXPins), I(Jmp(XDec, 9)),
     I(OutPins(8)), I(OutNull(8)), I(Jmp(Always, 0)),
     I(OutNull(8)), I(OutPins(8))]
  }

  function Code(alg: DataAlg): Program
  {
    match alg
    case Data0(wordSize) => Program([I(OutPins(wordSize))], 0, 0)
    case Data1 => Program(Data1Code(), 0, 10)
  }

  method EmitData(alg: DataAlg) returns (program: Program)
    ensures program == Code(alg)
  {
    match alg {
      case Data0(wordSize) =>
        program := Program([I(OutPins(wordSize))], 0, 0);
      case Data1 =>
        var code := [I(Pull)];
        var byteModeActive := |code| + 3;
        code := code + [I(Jmp(PinHigh, byteModeActive)), I(OutPins(16)), I(Jmp(Always, 0)), I(MovXPins)];
        var highByte := |code| + 4;
        code := code + [I(Jmp(XDec, highByte)), I(OutPins(8)), I(OutNull(8)), I(Jmp(Always, 0)), I(OutNull(8))];
        var wrapTop := |code|;
        code := code + [I(OutPins(8))];
        program := Program(code, 0, wrapTop);
    }
  }

  function Cycle(alg: DataAlg, o: Out, pins: Pins): Out
    requires o.sm.pc < |Code(alg).code|
  {
    OutStep(Code(alg), alg.Threshold(), o, pins)
  }

  // ---------------------------------------------------------------------------------------------
  // Where the program can be
  // ---------------------------------------------------------------------------------------------

  function Last(words: seq<nat>): nat
    requires words != []
  {
    words[|words| - 1]
  }

  // A word is loaded and none of it used, or all of it is.
  predicate WholeOrNone(alg: DataAlg, o: Out) { o.shifted == 0 || o.shifted >= alg.Threshold() }

  predicate PlaceFits(alg: DataAlg, o: Out)
  {
    if alg.Data0? then o.sm.pc == 0 && WholeOrNone(alg, o)
    else if o.sm.pc in {0, 3, 8} then WholeOrNone(alg, o)
    else if o.sm.pc in {7, 10} then o.shifted == 8
    else o.sm.pc <= 10 && o.shifted == 0
  }

  predicate InLoop(alg: DataAlg, o: Out)
  {
    && alg.Valid() && o.sm.delay == 0 && PlaceFits(alg, o)
    && (o.shifted < alg.Threshold() ==>
          o.taken != [] && o.osr == if o.shifted == 0 then Last(o.taken) else Shr(Last(o.taken), 8))
  }

  // The last word taken is still to be shown.
  predicate Pending(alg: DataAlg, o: Out) { o.shifted == 0 || (alg.Data1? && o.sm.pc == 10) }

  // How many words have been shown.
  function ShownCount(alg: DataAlg, o: Out): nat
    requires InLoop(alg, o)
  {
    if Pending(alg, o) then |o.taken| - 1 else |o.taken|
  }

  lemma Cycle0Stays(alg: DataAlg, o: Out, pins: Pins)
    requires alg.Data0? && InLoop(alg, o)
    ensures InLoop(alg, Cycle(alg, o, pins))
    ensures ShownCount(alg, o) <= ShownCount(alg, Cycle(alg, o, pins)) <= ShownCount(alg, o) + 1
  {
  }

  // Data1 is between words, or at one.
  predicate Between(o: Out) { o.sm.pc in {0, 3, 7, 8} }

  lemma BetweenStays(o: Out, pins: Pins)
    requires InLoop(Data1, o) && Between(o)
    ensures InLoop(Data1, Cycle(Data1, o, pins))
    ensures ShownCount(Data1, Cycle(Data1, o, pins)) == ShownCount(Data1, o)
  {
  }

  lemma AtWordStays(o: Out, pins: Pins)
    requires InLoop(Data1, o) && !Between(o)
    ensures InLoop(Data1, Cycle(Data1, o, pins))
    ensures ShownCount(Data1, Cycle(Data1, o, pins)) == ShownCount(Data1, o) + if o.sm.pc in {2, 6, 10} then 1 else 0
  {
  }

  lemma CyclesStay(alg: DataAlg, o: Out, pins: Pins)
    requires InLoop(alg, o)
    ensures o.sm.pc < |Code(alg).code|
    ensures InLoop(alg, Cycle(alg, o, pins))
    ensures ShownCount(alg, o) <= ShownCount(alg, Cycle(alg, o, pins)) <= ShownCount(alg, o) + 1
  {
    if alg.Data0? {
      Cycle0Stays(alg, o, pins);
    } else if Between(o) {
      BetweenStays(o, pins);
    } else {
      AtWordStays(o, pins);
    }
  }

  // Words come off the FIFO in order, and none is lost or made up.
  lemma CycleKeepsWords(alg: DataAlg, o: Out, pins: Pins)
    requires InLoop(alg, o)
    ensures o.sm.pc < |Code(alg).code|
    ensures Cycle(alg, o, pins).taken + Cycle(alg, o, pins).fifo == o.taken + o.fifo
  {
  }

  // ---------------------------------------------------------------------------------------------
  // What the pins show
  // ---------------------------------------------------------------------------------------------

  // /BYTE and A-1 as they were when the program read them for the word it is at.
  predicate ReadAs(alg: DataAlg, o: Out, pins: Pins)
  {
    alg.Data1? ==>
      && (o.sm.pc == 2 ==> !pins.jmp)
      && (o.sm.pc in {4, 5, 6, 9, 10} ==> pins.jmp)
      && (o.sm.pc == 5 ==> o.sm.x == pins.field)
      && (o.sm.pc == 6 ==> pins.field == 0)
      && (o.sm.pc in {9, 10} ==> pins.field != 0)
  }

  // Words from number `since` on have been read with these pins.
  predicate ShowsFrom(alg: DataAlg, o: Out, since: nat, pins: Pins)
    requires InLoop(alg, o)
  {
    && (ShownCount(alg, o) > since ==> o.pins == Shown(alg, o.taken[ShownCount(alg, o) - 1], pins))
    && (Pending(alg, o) && |o.taken| > since ==> ReadAs(alg, o, pins))
  }

  lemma Cycle0Shows(alg: DataAlg, o: Out, since: nat, pins: Pins)
    requires alg.Data0? && InLoop(alg, o) && ShowsFrom(alg, o, since, pins)
    ensures InLoop(alg, Cycle(alg, o, pins)) && ShowsFrom(alg, Cycle(alg, o, pins), since, pins)
  {
    Cycle0Stays(alg, o, pins);
  }

  lemma BetweenShows(o: Out, since: nat, pins: Pins)
    requires InLoop(Data1, o) && Between(o) && ShowsFrom(Data1, o, since, pins)
    ensures InLoop(Data1, Cycle(Data1, o, pins)) && ShowsFrom(Data1, Cycle(Data1, o, pins), since, pins)
  {
    BetweenStays(o, pins);
  }

  lemma ReadingShows(o: Out, since: nat, pins: Pins)
    requires InLoop(Data1, o) && o.sm.pc in {1, 4, 5, 9} && ShowsFrom(Data1, o, since, pins)
    ensures InLoop(Data1, Cycle(Data1, o, pins)) && ShowsFrom(Data1, Cycle(Data1, o, pins), since, pins)
  {
    AtWordStays(o, pins);
  }

  lemma ShowingShows(o: Out, since: nat, pins: Pins)
    requires InLoop(Data1, o) && o.sm.pc in {2, 6, 10} && ShowsFrom(Data1, o, since, pins)
    ensures InLoop(Data1, Cycle(Data1, o, pins)) && ShowsFrom(Data1, Cycle(Data1, o, pins), since, pins)
  {
    AtWordStays(o, pins);
  }

  // A cycle shows what it should of each word.
  lemma CycleShows(alg: DataAlg, o: Out, since: nat, pins: Pins)
    requires InLoop(alg, o) && ShowsFrom(alg, o, since, pins)
    ensures o.sm.pc < |Code(alg).code| && InLoop(alg, Cycle(alg, o, pins))
    ensures ShowsFrom(alg, Cycle(alg, o, pins), since, pins)
  {
    if alg.Data0? {
      Cycle0Shows(alg, o, since, pins);
    } else if Between(o) {
      BetweenShows(o, since, pins);
    } else if o.sm.pc in {2, 6, 10} {
      ShowingShows(o, since, pins);
    } else {
      ReadingShows(o, since, pins);
    }
  }

  // ---------------------------------------------------------------------------------------------
  // How soon
  // ---------------------------------------------------------------------------------------------

  // There is a word to show.
  predicate Available(alg: DataAlg, o: Out) { Pending(alg, o) || o.fifo != [] }

  // Cycles until the next word is shown, once there is one.
  function FromStart(pins: Pins): nat { if !pins.jmp then 3 else if pins.field == 0 then 5 else 6 }

  function ToShow(alg: DataAlg, o: Out, pins: Pins): nat
  {
    if alg.Data0? then if o.shifted == 0 then 1 else 2
    else if o.sm.pc == 0 then FromStart(pins)
    else if o.sm.pc == 1 then FromStart(pins) - 1
    else if o.sm.pc in {2, 6, 10} then 1
    else if o.sm.pc == 4 then if pins.field == 0 then 3 else 4
    else if o.sm.pc == 5 then if o.sm.x == 0 then 2 else 3
    else if o.sm.pc == 7 then 2 + FromStart(pins)
    else if o.sm.pc == 9 then 2
    else 1 + FromStart(pins)
  }

  lemma CycleGetsNearer(alg: DataAlg, o: Out, pins: Pins)
    requires InLoop(alg, o) && Available(alg, o)
    ensures o.sm.pc < |Code(alg).code| && InLoop(alg, Cycle(alg, o, pins))
    ensures 1 <= ToShow(alg, o, pins) <= 8
    ensures var next := Cycle(alg, o, pins);
      || ShownCount(alg, next) == ShownCount(alg, o) + 1
      || (Available(alg, next) && ToShow(alg, next, pins) < ToShow(alg, o, pins))
  {
    CyclesStay(alg, o, pins);
  }

  // With no word to show, a cycle brings none.
  lemma WaitsForAWord(alg: DataAlg, o: Out, pins: Pins)
    requires InLoop(alg, o) && !Available(alg, o)
    ensures o.sm.pc < |Code(alg).code| && InLoop(alg, Cycle(alg, o, pins))
    ensures !Available(alg, Cycle(alg, o, pins))
  {
    CyclesStay(alg, o, pins);
  }
}

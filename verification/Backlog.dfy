/** Whether the data program keeps up with the address program, so that the words between them fit
    the FIFO (firmware/src/piodma/piorom2.c). */
module Backlog {
  import opened Words
  import Pio
  import opened Bus
  import Address = AddressProgram
  import Data = DataProgram

  // Rounds in which the host's pins may change each time.
  function Course(s: Setting, server: Server, helds: seq<Held>): (end: Server)
    requires Valid(s, server)
    ensures Valid(s, end)
    decreases |helds|
  {
    if helds == [] then server
    else Run(s, Course(s, server, helds[..|helds| - 1]), ROUND, helds[|helds| - 1])
  }

  lemma {:induction false} CourseKeepsX(s: Setting, server: Server, helds: seq<Held>)
    requires Valid(s, server)
    ensures Course(s, server, helds).addr.x == server.addr.x
    decreases |helds|
  {
    if helds != [] {
      var before, held := Course(s, server, helds[..|helds| - 1]), helds[|helds| - 1];
      CourseKeepsX(s, server, helds[..|helds| - 1]);
      RoundKeepsX(s, before, held);
    }
  }

  lemma RoundKeepsX(s: Setting, server: Server, held: Held)
    requires Valid(s, server)
    ensures Run(s, server, ROUND, held).addr.x == server.addr.x
  {
    RoundIs(s, server, held);
    NextStays(s, server, AddrTick, held);
    NextStays(s, Next(s, server, AddrTick, held), DmaTick, held);
    NextStays(s, Next(s, Next(s, server, AddrTick, held), DmaTick, held), DataTick, held);
  }

  // What the DMA has brought the data program by its cycle of a round.
  function Fed(s: Setting, server: Server, held: Held): Pio.Out
    requires Valid(s, server)
  {
    var pushed := Pio.Step(Address.AddrProgram(s.addr), server.addr, held.addr).pushed;
    if pushed == [] || pushed == server.addr.pushed then server.data
    else server.data.(fifo := server.data.fifo + [Read(s, pushed[|pushed| - 1])])
  }

  // The DMA has read every address pushed.
  predicate AllMoved(server: Server) { server.moved == |server.addr.pushed| }

  lemma RoundDoes(s: Setting, server: Server, held: Held)
    requires Valid(s, server) && AllMoved(server)
    ensures var end := Run(s, server, ROUND, held);
      && AllMoved(end) && Data.InLoop(s.data, Fed(s, server, held))
      && end.addr == Pio.Step(Address.AddrProgram(s.addr), server.addr, held.addr)
      && Fed(s, server, held).sm.pc < |Data.Code(s.data).code|
      && end.data == Data.Cycle(s.data, Fed(s, server, held), held.data)
  {
    RoundIs(s, server, held);
    NextStays(s, server, AddrTick, held);
    Address.PushEndsPass(s.addr, server.addr, held.addr);
    Data.CyclesStay(s.data, Fed(s, server, held), held.data);
  }

  // A push comes every period.
  lemma PushesByPeriod(s: Setting, server: Server, held: Held)
    requires Valid(s, server) && AllMoved(server)
    ensures var left, end := Address.ToPush(s.addr, server.addr), Run(s, server, ROUND, held);
      && 1 <= left <= s.addr.Period()
      && |end.addr.pushed| == |server.addr.pushed| + (if left == 1 then 1 else 0)
      && Address.ToPush(s.addr, end.addr) == (if left == 1 then s.addr.Period() else left - 1)
      && |Fed(s, server, held).fifo| == |server.data.fifo| + (if left == 1 then 1 else 0)
  {
    RoundDoes(s, server, held);
    Address.PushEndsPass(s.addr, server.addr, held.addr);
    Address.CountsDown(s.addr, server.addr, held.addr);
  }

  // ---------------------------------------------------------------------------------------------
  // Keeping up
  // ---------------------------------------------------------------------------------------------

  // The cycles a word takes at most: ALG_DATA_1's longest pass, for a low byte, has seven.
  function Each(alg: Data.DataAlg): nat { if alg.Data0? then 2 else 7 }

  // The cycles left at most of ALG_DATA_1's pass.
  function Rest(pc: nat): nat
  {
    match pc
    case 1 => 6
    case 4 => 5
    case 5 => 4
    case 6 => 3
    case 2 => 2
    case 7 => 2
    case 9 => 2
    case 3 => 1
    case 8 => 1
    case 10 => 1
    case _ => 0
  }

  // A word is loaded that the pass under way is not about.
  predicate Ahead(o: Pio.Out) { o.sm.pc in {0, 3, 8} && o.shifted == 0 }

  // The passes ALG_DATA_1 has begun.
  function Begun(o: Pio.Out): int { |o.taken| - if Ahead(o) then 1 else 0 }

  // The cycles all the words in hand take at most.
  function Work(alg: Data.DataAlg, o: Pio.Out): nat
  {
    if alg.Data0? then 2 * |o.fifo| + if o.shifted == 0 then 1 else 0
    else 7 * (|o.fifo| + if Ahead(o) then 1 else 0) + Rest(o.sm.pc)
  }

  lemma CycleWorks(alg: Data.DataAlg, o: Pio.Out, pins: Pio.Pins)
    requires Data.InLoop(alg, o)
    ensures o.sm.pc < |Data.Code(alg).code|
    ensures Work(alg, Data.Cycle(alg, o, pins)) == 0 || Work(alg, Data.Cycle(alg, o, pins)) < Work(alg, o)
  {
    Data.CyclesStay(alg, o, pins);
  }

  // The work there may be with so many cycles to the next push.
  function Allowed(s: Setting, left: nat): nat
    requires s.Valid() && s.addr.Period() >= Each(s.data)
  {
    var slack := s.addr.Period() - Each(s.data);
    if left <= slack then 0 else left - slack
  }

  predicate CaughtUp(s: Setting, server: Server)
    requires Valid(s, server) && s.addr.Period() >= Each(s.data)
  {
    AllMoved(server) && Work(s.data, server.data) <= Allowed(s, Address.ToPush(s.addr, server.addr))
  }

  lemma RoundCatchesUp(s: Setting, server: Server, held: Held)
    requires Valid(s, server) && s.addr.Period() >= Each(s.data) && CaughtUp(s, server)
    ensures CaughtUp(s, Run(s, server, ROUND, held))
  {
    RoundDoes(s, server, held);
    PushesByPeriod(s, server, held);
    CycleWorks(s.data, Fed(s, server, held), held.data);
  }

  lemma CaughtUpFits(s: Setting, server: Server)
    requires Valid(s, server) && s.addr.Period() >= Each(s.data) && CaughtUp(s, server)
    ensures |server.data.fifo| <= 1
  {
    Address.CountsDown(s.addr, server.addr, LowByte().addr);
  }

  lemma {:induction false} StaysCaughtUp(s: Setting, server: Server, helds: seq<Held>)
    requires Valid(s, server) && s.addr.Period() >= Each(s.data) && CaughtUp(s, server)
    ensures CaughtUp(s, Course(s, server, helds))
    decreases |helds|
  {
    if helds != [] {
      StaysCaughtUp(s, server, helds[..|helds| - 1]);
      RoundCatchesUp(s, Course(s, server, helds[..|helds| - 1]), helds[|helds| - 1]);
    }
  }

  lemma StartIsCaughtUp(s: Setting, x: nat)
    requires Valid(s, Start(x)) && s.addr.Period() >= Each(s.data)
    ensures CaughtUp(s, Start(x))
  {
  }

  // ---------------------------------------------------------------------------------------------
  // The access time
  // ---------------------------------------------------------------------------------------------

  // The words brought to the data program so far.
  function Brought(o: Pio.Out): nat { |o.taken| + |o.fifo| }

  // The cycles it takes at most to show word j, once brought.
  function Due(alg: Data.DataAlg, o: Pio.Out, j: nat): int
  {
    if alg.Data0? then 2 * From(j + 1 - |o.taken|) + if o.shifted == 0 then 1 else 0
    else 7 * From(j + 1 - Begun(o)) + Rest(o.sm.pc)
  }

  function From(n: int): int { if n < 0 then 0 else n }

  predicate GetsNearer(alg: Data.DataAlg, o: Pio.Out, next: Pio.Out, j: nat)
    requires Data.InLoop(alg, next)
  {
    Due(alg, o, j) > 0 && (Data.ShownCount(alg, next) > j || Due(alg, next, j) < Due(alg, o, j))
  }

  lemma BetweenDue(o: Pio.Out, j: nat, pins: Pio.Pins)
    requires Data.InLoop(Data.Data1, o) && Data.Between(o) && Data.ShownCount(Data.Data1, o) <= j < Brought(o)
    ensures Data.InLoop(Data.Data1, Data.Cycle(Data.Data1, o, pins))
    ensures GetsNearer(Data.Data1, o, Data.Cycle(Data.Data1, o, pins), j)
  {
    Data.BetweenStays(o, pins);
  }

  lemma AtWordDue(o: Pio.Out, j: nat, pins: Pio.Pins)
    requires Data.InLoop(Data.Data1, o) && !Data.Between(o) && Data.ShownCount(Data.Data1, o) <= j < Brought(o)
    ensures Data.InLoop(Data.Data1, Data.Cycle(Data.Data1, o, pins))
    ensures GetsNearer(Data.Data1, o, Data.Cycle(Data.Data1, o, pins), j)
  {
    Data.AtWordStays(o, pins);
  }

  lemma CycleDue(alg: Data.DataAlg, o: Pio.Out, j: nat, pins: Pio.Pins)
    requires Data.InLoop(alg, o) && Data.ShownCount(alg, o) <= j < Brought(o)
    ensures o.sm.pc < |Data.Code(alg).code| && Data.InLoop(alg, Data.Cycle(alg, o, pins))
    ensures GetsNearer(alg, o, Data.Cycle(alg, o, pins), j)
  {
    if alg.Data0? {
      Data.Cycle0Stays(alg, o, pins);
    } else if Data.Between(o) {
      BetweenDue(o, j, pins);
    } else {
      AtWordDue(o, j, pins);
    }
  }

  // The rounds until word j is shown, at most, where it is brought already or by one of the next
  // two pushes.
  function RoundsTo(s: Setting, server: Server, j: nat): int
    requires Valid(s, server) && j <= Brought(server.data) + 1
  {
    var left := Address.ToPush(s.addr, server.addr);
    if Data.ShownCount(s.data, server.data) > j then 0
    else if j < Brought(server.data) then Due(s.data, server.data, j)
    else if j == Brought(server.data) then left + Each(s.data)
    else s.addr.Period() + left + Each(s.data)
  }

  lemma RoundBrings(s: Setting, server: Server, held: Held)
    requires Valid(s, server) && AllMoved(server)
    ensures Brought(Run(s, server, ROUND, held).data) == Brought(Fed(s, server, held))
         == Brought(server.data) + if Address.ToPush(s.addr, server.addr) == 1 then 1 else 0
    ensures Data.ShownCount(s.data, Run(s, server, ROUND, held).data) >= Data.ShownCount(s.data, server.data)
  {
    var fed, end := Fed(s, server, held), Run(s, server, ROUND, held);
    RoundDoes(s, server, held);
    PushesByPeriod(s, server, held);
    Data.CyclesStay(s.data, fed, held.data);
    Data.CycleKeepsWords(s.data, fed, held.data);
    assert |end.data.taken + end.data.fifo| == |fed.taken + fed.fifo|;
  }

  // The word brought last is due when all the work is done.
  lemma LastIsDue(alg: Data.DataAlg, o: Pio.Out)
    requires Data.InLoop(alg, o) && Data.ShownCount(alg, o) < Brought(o)
    ensures Due(alg, o, Brought(o) - 1) <= Work(alg, o)
  {
  }

  lemma RoundGetsNearer(s: Setting, server: Server, held: Held, j: nat)
    requires Valid(s, server) && s.addr.Period() >= Each(s.data) && CaughtUp(s, server)
    requires j <= Brought(server.data) + 1 && Data.ShownCount(s.data, server.data) <= j
    ensures RoundsTo(s, server, j) > 0
    ensures j <= Brought(Run(s, server, ROUND, held).data) + 1
    ensures RoundsTo(s, Run(s, server, ROUND, held), j) < RoundsTo(s, server, j)
  {
    var fed, end := Fed(s, server, held), Run(s, server, ROUND, held);
    RoundDoes(s, server, held);
    PushesByPeriod(s, server, held);
    RoundBrings(s, server, held);
    if j < Brought(server.data) {
      CycleDue(s.data, fed, j, held.data);
    } else if j < Brought(end.data) && Data.ShownCount(s.data, end.data) <= j {
      RoundCatchesUp(s, server, held);
      LastIsDue(s.data, end.data);
    }
  }

  // Word j is shown within so many rounds.
  predicate Nears(s: Setting, server: Server, j: nat, rounds: int)
    requires Valid(s, server) && s.addr.Period() >= Each(s.data)
  {
    && CaughtUp(s, server) && j <= Brought(server.data) + 1
    && (Data.ShownCount(s.data, server.data) > j || RoundsTo(s, server, j) <= rounds)
  }

  lemma RoundNears(s: Setting, server: Server, held: Held, j: nat, rounds: int)
    requires Valid(s, server) && s.addr.Period() >= Each(s.data) && Nears(s, server, j, rounds)
    ensures Nears(s, Run(s, server, ROUND, held), j, rounds - 1)
  {
    RoundCatchesUp(s, server, held);
    RoundBrings(s, server, held);
    if Data.ShownCount(s.data, server.data) <= j { RoundGetsNearer(s, server, held, j); }
  }

  lemma NextRoundNears(s: Setting, server: Server, held: Held, j: nat, rounds: int, n: nat)
    requires Valid(s, server) && s.addr.Period() >= Each(s.data)
    requires Nears(s, Rounds(s, server, held, n), j, rounds)
    ensures Nears(s, Rounds(s, server, held, n + 1), j, rounds - 1)
  {
    RoundNears(s, Rounds(s, server, held, n), held, j, rounds);
    RoundsStep(s, server, held, n);
  }

  lemma {:induction false} RoundsNear(s: Setting, server: Server, held: Held, j: nat, rounds: int, n: nat)
    requires Valid(s, server) && s.addr.Period() >= Each(s.data) && Nears(s, server, j, rounds)
    ensures Nears(s, Rounds(s, server, held, n), j, rounds - n)
  {
    if n == 0 {
      RoundsStep(s, server, held, 0);
    } else {
      RoundsNear(s, server, held, j, rounds, n - 1);
      NextRoundNears(s, server, held, j, rounds - (n - 1), n - 1);
    }
  }

  // Two passes of the address program, and one of the data program.
  function AccessTime(s: Setting): nat
    requires s.Valid()
  {
    2 * s.addr.Period() + Each(s.data)
  }

  // Where it has kept up, the host's pins held for that long, whatever they did before, show the
  // word they address, and go on showing it.
  lemma ServesInAccessTime(s: Setting, server: Server, held: Held, n: nat)
    requires Valid(s, server) && s.addr.Period() >= Each(s.data) && CaughtUp(s, server) && n >= AccessTime(s)
    ensures ShowsTable(s, Rounds(s, server, held, n), held)
    ensures Rounds(s, server, held, n).addr.x == server.addr.x
  {
    var j := Brought(server.data) + 1;
    var end := Rounds(s, server, held, n);
    PushesByPeriod(s, server, held);
    RoundsNear(s, server, held, j, AccessTime(s), n);
    if Data.ShownCount(s.data, end.data) <= j { RoundGetsNearer(s, end, held, j); }
    ServesHeldAddress(s, server, RoundTicks(n), held);
  }

  // ---------------------------------------------------------------------------------------------
  // Falling behind
  // ---------------------------------------------------------------------------------------------

  // A host that holds /BYTE active and A-1 low.
  function LowByte(): Held { Held(Pio.Pins(0, false), Pio.Pins(0, true)) }

  function LowBytes(n: nat): seq<Held> { seq(n, _ => LowByte()) }

  // Where ALG_DATA_1 is then.
  predicate OnLowPath(o: Pio.Out) { o.sm.pc in {0, 1, 4, 5, 6, 7, 8} && (o.sm.pc == 5 ==> o.sm.x == 0) }

  lemma LowPathTakesSeven(o: Pio.Out)
    requires Data.InLoop(Data.Data1, o) && OnLowPath(o)
    ensures o.sm.pc < |Data.Code(Data.Data1).code|
    ensures var next := Data.Cycle(Data.Data1, o, LowByte().data);
      && OnLowPath(next)
      && 7 * Begun(next) - Rest(next.sm.pc) <= 7 * Begun(o) - Rest(o.sm.pc) + 1
  {
    Data.CyclesStay(Data.Data1, o, LowByte().data);
  }

  // The rounds it takes to push so many words and come so near the next.
  function Elapsed(period: nat, pushed: nat, left: nat): int { (pushed + 1) * period - left }

  lemma ElapsedNext(period: nat, pushed: nat, left: nat)
    ensures Elapsed(period, pushed + 1, period) == Elapsed(period, pushed, 1) + 1
    ensures Elapsed(period, pushed, left) == Elapsed(period, pushed, left + 1) + 1
  {
    MulSuccessor(pushed + 1, period);
  }

  // The address program after n rounds from the start, and the data program.
  predicate OnTime(s: Setting, server: Server, n: nat)
    requires Valid(s, server)
  {
    Elapsed(s.addr.Period(), |server.addr.pushed|, Address.ToPush(s.addr, server.addr)) == n
  }

  predicate Late(o: Pio.Out, n: nat) { OnLowPath(o) && 7 * Begun(o) - Rest(o.sm.pc) <= n }

  predicate Behind(s: Setting, server: Server, n: nat)
    requires Valid(s, server)
  {
    && AllMoved(server) && OnTime(s, server, n) && Late(server.data, n)
    && |server.data.taken| + |server.data.fifo| == |server.addr.pushed|
  }

  lemma RoundOnTime(s: Setting, server: Server, held: Held, n: nat)
    requires Valid(s, server) && AllMoved(server) && OnTime(s, server, n)
    ensures OnTime(s, Run(s, server, ROUND, held), n + 1)
  {
    var left := Address.ToPush(s.addr, server.addr);
    PushesByPeriod(s, server, held);
    ElapsedNext(s.addr.Period(), |server.addr.pushed|, left - 1);
  }

  lemma RoundIsLate(s: Setting, server: Server, n: nat)
    requires Valid(s, server) && s.data.Data1? && AllMoved(server) && Late(server.data, n)
    ensures Late(Run(s, server, ROUND, LowByte()).data, n + 1)
  {
    RoundDoes(s, server, LowByte());
    LowPathTakesSeven(Fed(s, server, LowByte()));
  }

  lemma RoundKeepsWords(s: Setting, server: Server, held: Held)
    requires Valid(s, server) && AllMoved(server)
    requires |server.data.taken| + |server.data.fifo| == |server.addr.pushed|
    ensures var end := Run(s, server, ROUND, held);
      AllMoved(end) && |end.data.taken| + |end.data.fifo| == |end.addr.pushed|
  {
    RoundDoes(s, server, held);
    PushesByPeriod(s, server, held);
    Data.CycleKeepsWords(s.data, Fed(s, server, held), held.data);
    var end := Run(s, server, ROUND, held);
    assert |end.data.taken + end.data.fifo| == |server.data.taken + Fed(s, server, held).fifo|;
  }

  lemma RoundFallsBehind(s: Setting, server: Server, n: nat)
    requires Valid(s, server) && s.data.Data1? && Behind(s, server, n)
    ensures Behind(s, Run(s, server, ROUND, LowByte()), n + 1)
  {
    RoundOnTime(s, server, LowByte(), n);
    RoundIsLate(s, server, n);
    RoundKeepsWords(s, server, LowByte());
  }

  lemma StartsBehind(s: Setting, x: nat)
    requires Valid(s, Start(x)) && s.data.Data1?
    ensures Behind(s, Start(x), 0)
  {
  }

  lemma {:induction false} FallsBehind(s: Setting, x: nat, n: nat)
    requires Valid(s, Start(x)) && s.data.Data1?
    ensures Behind(s, Course(s, Start(x), LowBytes(n)), n)
  {
    if n == 0 {
      StartsBehind(s, x);
    } else {
      FallsBehind(s, x, n - 1);
      assert LowBytes(n)[..n - 1] == LowBytes(n - 1);
      RoundFallsBehind(s, Course(s, Start(x), LowBytes(n - 1)), n - 1);
    }
  }

  // With a period of six or less, 42 rounds push seven words, where only six are taken.
  lemma TooManyPushed(period: nat, pushed: nat, left: nat, k: nat)
    requires 1 <= left && period <= 6 && Elapsed(period, pushed, left) == 42 * k
    ensures pushed >= 7 * k
  {
    assert (pushed + 1) * period <= (pushed + 1) * 6;
  }

  lemma TooFewTaken(o: Pio.Out, k: nat)
    requires Late(o, 42 * k)
    ensures |o.taken| <= 6 * k + 1
  {
  }

  lemma Overruns(s: Setting, x: nat, depth: nat)
    requires Valid(s, Start(x)) && s.data.Data1? && s.addr.Period() <= 6
    ensures |Course(s, Start(x), LowBytes(42 * (depth + 2))).data.fifo| > depth
  {
    var k := depth + 2;
    var end := Course(s, Start(x), LowBytes(42 * k));
    FallsBehind(s, x, 42 * k);
    PushesByPeriod(s, end, LowByte());
    TooManyPushed(s.addr.Period(), |end.addr.pushed|, Address.ToPush(s.addr, end.addr), k);
    TooFewTaken(end.data, k);
  }

  // ---------------------------------------------------------------------------------------------
  // Exactly when
  // ---------------------------------------------------------------------------------------------

  // From the start, whatever the host's pins do, no more words than `depth` wait in the FIFO.
  ghost predicate NeverOverrun(s: Setting, x: nat, depth: nat)
    requires Valid(s, Start(x))
  {
    forall helds :: AllMoved(Course(s, Start(x), helds)) && |Course(s, Start(x), helds).data.fifo| <= depth
  }

  // A FIFO, of any depth, is never overrun exactly where the address program takes seven cycles at
  // least, or the data program does not read /BYTE.
  lemma KeepsUpIff(s: Setting, x: nat, depth: nat)
    requires s.Valid() && depth > 0
    ensures Valid(s, Start(x))
    ensures NeverOverrun(s, x, depth) <==> s.data.Data0? || s.addr.Period() >= 7
  {
    StartIsValid(s, x);
    if s.data.Data0? || s.addr.Period() >= 7 {
      forall helds
        ensures AllMoved(Course(s, Start(x), helds)) && |Course(s, Start(x), helds).data.fifo| <= depth
      {
        StaysCaughtUp(s, Start(x), helds);
        CaughtUpFits(s, Course(s, Start(x), helds));
      }
    } else {
      Overruns(s, x, depth);
    }
  }

  // The delays the slots are generated with (rust/gen/src/v2/alg_config.rs).
  const ALG_DATA0_NUM_DELAY_CYCLES_8_BIT: nat := 2
  const ALG_DATA1_NUM_DELAY_CYCLES_16_BIT: nat := 4

  function BuildAlgAddr(numAddrPins: nat, data: Data.DataAlg): Address.AddrAlg
  {
    match data
    case Data0(wordSize) =>
      Address.AddrAlg(if wordSize == 8 then numAddrPins else numAddrPins + 1, numAddrPins,
                      ALG_DATA0_NUM_DELAY_CYCLES_8_BIT)
    case Data1 => Address.AddrAlg(numAddrPins + 1, numAddrPins, ALG_DATA1_NUM_DELAY_CYCLES_16_BIT)
  }

  // With them none is ever overrun, and for ALG_DATA_1 no smaller delay would do.
  lemma BuiltKeepsUp(s: Setting, numAddrPins: nat, delay: nat, x: nat, depth: nat)
    requires 0 < numAddrPins < 31 && s.data.Valid() && depth > 0
    requires s.addr == BuildAlgAddr(numAddrPins, s.data).(delay := delay)
    ensures Valid(s, Start(x))
    ensures delay == BuildAlgAddr(numAddrPins, s.data).delay ==> NeverOverrun(s, x, depth)
    ensures s.data.Data1? ==> (NeverOverrun(s, x, depth) <==> delay >= ALG_DATA1_NUM_DELAY_CYCLES_16_BIT)
  {
    KeepsUpIff(s, x, depth);
  }

  lemma BuiltAccessTime(s: Setting, numAddrPins: nat)
    requires 0 < numAddrPins < 31 && s.data.Valid() && s.addr == BuildAlgAddr(numAddrPins, s.data)
    ensures AccessTime(s) == if s.data.Data1? then 21 else if s.data.wordSize == 8 then 10 else 12
  {
  }
}

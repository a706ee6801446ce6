/** The whole serving path while a host holds its pins: the address program pushes addresses, the
    DMA reads the table, and the data program puts what it reads on the pins
    (firmware/src/piodma/piorom2.c). */
module Bus {
  import opened Words
  import opened Pio
  import Address = AddressProgram
  import Data = DataProgram

  // The programs' settings, and the SRAM the DMA reads.
  datatype Setting = Setting(addr: Address.AddrAlg, data: Data.DataAlg, sram: seq<nat>, base: nat)
  {
    predicate Valid() { addr.Valid() && data.Valid() }

    // A byte at a time, or two.
    predicate Wide() { data.Data1? || data.wordSize > 8 }
  }

  // What the DMA reads at an address.
  function Read(s: Setting, address: nat): nat
  {
    var i := address - s.base;
    if s.Wide() then if 0 <= i && i + 1 < |s.sram| then s.sram[i] + 0x100 * s.sram[i + 1] else 0
    else if 0 <= i < |s.sram| then s.sram[i] else 0
  }

  lemma ReadsAt(s: Setting, i: nat)
    ensures !s.Wide() && i < |s.sram| ==> Read(s, s.base + i) == s.sram[i]
    ensures s.Wide() && i + 1 < |s.sram| ==> Read(s, s.base + i) == s.sram[i] + 0x100 * s.sram[i + 1]
  {
  }

  // The two state machines, and how many of the addresses pushed the DMA has read.
  datatype Server = Server(addr: Sm, data: Out, moved: nat)

  predicate Valid(s: Setting, server: Server)
  {
    && s.Valid() && Address.InLoop(s.addr, server.addr) && Data.InLoop(s.data, server.data)
    && server.moved <= |server.addr.pushed|
  }

  // Before the first cycle, with X as it was set.
  function Start(x: nat): Server { Server(Fresh(x, 0), Out(Fresh(0, 0), 0, 32, [], 0, []), 0) }

  lemma StartIsValid(s: Setting, x: nat)
    requires s.Valid()
    ensures Valid(s, Start(x))
  {
  }

  // The host's pins: what the address program reads, and what the data program does.
  datatype Held = Held(addr: Pins, data: Pins)

  // A cycle of the address program, a transfer, or a cycle of the data program.
  datatype Tick = AddrTick | DmaTick | DataTick

  function Next(s: Setting, server: Server, tick: Tick, held: Held): Server
    requires Valid(s, server)
  {
    match tick
    case AddrTick => server.(addr := Step(Address.AddrProgram(s.addr), server.addr, held.addr))
    case DmaTick =>
      if server.moved == |server.addr.pushed| then server
      else
        server.(data := server.data.(fifo := server.data.fifo + [Read(s, server.addr.pushed[server.moved])]),
                moved := server.moved + 1)
    case DataTick =>
      Data.CyclesStay(s.data, server.data, held.data);
      server.(data := Data.Cycle(s.data, server.data, held.data))
  }

  lemma NextStays(s: Setting, server: Server, tick: Tick, held: Held)
    requires Valid(s, server)
    ensures Valid(s, Next(s, server, tick, held))
    ensures Next(s, server, tick, held).addr.x == server.addr.x
    ensures Data.ShownCount(s.data, server.data) <= Data.ShownCount(s.data, Next(s, server, tick, held).data)
  {
    match tick
    case AddrTick =>
      Address.InLoopStep(s.addr, server.addr, held.addr);
      Address.PushEndsPass(s.addr, server.addr, held.addr);
    case DmaTick =>
    case DataTick => Data.CyclesStay(s.data, server.data, held.data);
  }

  // ---------------------------------------------------------------------------------------------
  // The words on their way
  // ---------------------------------------------------------------------------------------------

  // What the DMA will read at the addresses from number `from` on.
  function Reads(s: Setting, addresses: seq<nat>, from: nat): (words: seq<nat>)
    requires from <= |addresses|
    ensures |words| == |addresses| - from
    ensures forall i :: 0 <= i < |words| ==> words[i] == Read(s, addresses[from + i])
  {
    seq<nat>(|addresses| - from, i requires 0 <= i < |addresses| - from => Read(s, addresses[from + i]))
  }

  // Every word taken, in the FIFO, or still to be read, in order.
  function Queue(s: Setting, server: Server): seq<nat>
    requires server.moved <= |server.addr.pushed|
  {
    server.data.taken + server.data.fifo + Reads(s, server.addr.pushed, server.moved)
  }

  lemma QueueGrows(s: Setting, server: Server, tick: Tick, held: Held)
    requires Valid(s, server)
    ensures Valid(s, Next(s, server, tick, held))
    ensures var next := Next(s, server, tick, held);
      Queue(s, next) == if tick == AddrTick && next.addr.pushed != server.addr.pushed
                        then Queue(s, server) + [Read(s, next.addr.pushed[|next.addr.pushed| - 1])]
                        else Queue(s, server)
  {
    var next := Next(s, server, tick, held);
    NextStays(s, server, tick, held);
    match tick
    case AddrTick =>
      Address.PushEndsPass(s.addr, server.addr, held.addr);
      if next.addr.pushed != server.addr.pushed {
        var last := next.addr.pushed[|next.addr.pushed| - 1];
        assert Reads(s, next.addr.pushed, next.moved)
            == Reads(s, server.addr.pushed, server.moved) + [Read(s, last)];
      }
    case DmaTick =>
      if next != server {
        assert Reads(s, server.addr.pushed, server.moved)
            == [Read(s, server.addr.pushed[server.moved])] + Reads(s, server.addr.pushed, next.moved);
      }
    case DataTick =>
      Data.CycleKeepsWords(s.data, server.data, held.data);
  }

  // From number `stale` on, the words are those at the table address of the pins held.
  predicate Settles(s: Setting, server: Server, stale: nat, field: nat)
    requires Valid(s, server)
  {
    && (forall i :: stale <= i < |Queue(s, server)| ==>
          Queue(s, server)[i] == Read(s, Address.TableAddr(s.addr, server.addr.x, field)))
    && (Address.Settled(s.addr, server.addr, field) || |Queue(s, server)| < stale)
  }

  lemma NextSettles(s: Setting, server: Server, tick: Tick, held: Held, stale: nat)
    requires Valid(s, server) && Settles(s, server, stale, held.addr.field)
    ensures Valid(s, Next(s, server, tick, held))
    ensures Settles(s, Next(s, server, tick, held), stale, held.addr.field)
  {
    NextStays(s, server, tick, held);
    QueueGrows(s, server, tick, held);
    if tick == AddrTick {
      Address.PushEndsPass(s.addr, server.addr, held.addr);
      if Address.Settled(s.addr, server.addr, held.addr.field) {
        Address.SettledStep(s.addr, server.addr, held.addr);
      }
    }
  }

  lemma NextShows(s: Setting, server: Server, tick: Tick, held: Held, since: nat)
    requires Valid(s, server) && Data.ShowsFrom(s.data, server.data, since, held.data)
    ensures Valid(s, Next(s, server, tick, held))
    ensures Data.ShowsFrom(s.data, Next(s, server, tick, held).data, since, held.data)
  {
    NextStays(s, server, tick, held);
    if tick == DataTick {
      Data.CycleShows(s.data, server.data, since, held.data);
    }
  }

  function Run(s: Setting, server: Server, ticks: seq<Tick>, held: Held): (end: Server)
    requires Valid(s, server)
    ensures Valid(s, end)
    decreases |ticks|
  {
    if ticks == [] then server
    else
      var before := Run(s, server, ticks[..|ticks| - 1], held);
      NextStays(s, before, ticks[|ticks| - 1], held);
      Next(s, before, ticks[|ticks| - 1], held)
  }

  lemma {:induction false} RunSettles(s: Setting, server: Server, ticks: seq<Tick>, held: Held, stale: nat, since: nat)
    requires Valid(s, server) && Settles(s, server, stale, held.addr.field)
    requires Data.ShowsFrom(s.data, server.data, since, held.data)
    ensures var end := Run(s, server, ticks, held);
      && Settles(s, end, stale, held.addr.field) && end.addr.x == server.addr.x
      && Data.ShowsFrom(s.data, end.data, since, held.data)
    decreases |ticks|
  {
    if ticks != [] {
      var before, last := ticks[..|ticks| - 1], ticks[|ticks| - 1];
      RunSettles(s, server, before, held, stale, since);
      NextSettles(s, Run(s, server, before, held), last, held, stale);
      NextShows(s, Run(s, server, before, held), last, held, since);
      NextStays(s, Run(s, server, before, held), last, held);
    }
  }

  // The words on their way when the host's pins settle, and the one of the pass under way.
  function Stale(s: Setting, server: Server): nat
    requires Valid(s, server)
  {
    |Queue(s, server)| + 1
  }

  // Those of them not yet shown.
  function OnTheirWay(s: Setting, server: Server): nat
    requires Valid(s, server)
  {
    |Queue(s, server)| - Data.ShownCount(s.data, server.data)
  }

  // The pins show the word at the table address of the host's pins.
  predicate ShowsTable(s: Setting, server: Server, held: Held)
    requires Valid(s, server)
  {
    server.data.pins
    == Data.Shown(s.data, Read(s, Address.TableAddr(s.addr, server.addr.x, held.addr.field)), held.data)
  }

  // In whatever order the three take their turns: once more words have been shown than were on
  // their way when the host's pins settled, the data pins show the word those pins address.
  lemma ServesHeldAddress(s: Setting, server: Server, ticks: seq<Tick>, held: Held)
    requires Valid(s, server)
    requires Data.ShownCount(s.data, Run(s, server, ticks, held).data) > Stale(s, server)
    ensures ShowsTable(s, Run(s, server, ticks, held), held)
    ensures Run(s, server, ticks, held).addr.x == server.addr.x
  {
    var end, stale := Run(s, server, ticks, held), Stale(s, server);
    StartSettles(s, server, held);
    RunSettles(s, server, ticks, held, stale, |server.data.taken|);
    ShowsOnceSettled(s, end, stale, |server.data.taken|, held);
  }

  lemma StartSettles(s: Setting, server: Server, held: Held)
    requires Valid(s, server)
    ensures Settles(s, server, Stale(s, server), held.addr.field)
    ensures Data.ShowsFrom(s.data, server.data, |server.data.taken|, held.data)
    ensures |server.data.taken| < Stale(s, server)
  {
  }

  lemma ShowsOnceSettled(s: Setting, server: Server, stale: nat, since: nat, held: Held)
    requires Valid(s, server) && Settles(s, server, stale, held.addr.field)
    requires Data.ShowsFrom(s.data, server.data, since, held.data)
    requires Data.ShownCount(s.data, server.data) > stale >= since
    ensures ShowsTable(s, server, held)
  {
    var n := Data.ShownCount(s.data, server.data);
    assert n <= |server.data.taken| && Queue(s, server)[n - 1] == server.data.taken[n - 1];
  }

  // ---------------------------------------------------------------------------------------------
  // How soon, where the three run side by side
  // ---------------------------------------------------------------------------------------------

  const ROUND: seq<Tick> := [AddrTick, DmaTick, DataTick]

  function RoundTicks(n: nat): seq<Tick>
  {
    if n == 0 then [] else RoundTicks(n - 1) + ROUND
  }

  function Rounds(s: Setting, server: Server, held: Held, n: nat): (end: Server)
    requires Valid(s, server)
    ensures Valid(s, end)
  {
    Run(s, server, RoundTicks(n), held)
  }

  // Rounds until the next word is shown, at most.
  function Wait(s: Setting, server: Server, held: Held): nat
    requires Valid(s, server)
  {
    if Data.Available(s.data, server.data) then Data.ToShow(s.data, server.data, held.data)
    else if server.moved < |server.addr.pushed| then 9
    else 9 + Address.ToPush(s.addr, server.addr)
  }

  function LongestWait(s: Setting): nat
    requires s.Valid()
  {
    9 + s.addr.Period()
  }

  lemma WaitWithin(s: Setting, server: Server, held: Held)
    requires Valid(s, server)
    ensures Wait(s, server, held) <= LongestWait(s)
  {
    if Data.Available(s.data, server.data) { Data.CycleGetsNearer(s.data, server.data, held.data); }
  }

  // Once the address program has had its cycle and the DMA its turn, there is a word to show, or
  // the wait for one is shorter.
  lemma FetchGetsNearer(s: Setting, server: Server, held: Held)
    requires Valid(s, server)
    ensures Valid(s, Next(s, server, AddrTick, held))
    ensures var fetched := Next(s, Next(s, server, AddrTick, held), DmaTick, held);
      && Valid(s, fetched) && Data.ShownCount(s.data, fetched.data) == Data.ShownCount(s.data, server.data)
      && (Data.Available(s.data, server.data) ==>
            Data.Available(s.data, fetched.data)
            && Data.ToShow(s.data, fetched.data, held.data) == Data.ToShow(s.data, server.data, held.data))
      && (!Data.Available(s.data, fetched.data) ==>
            fetched.moved == |fetched.addr.pushed|
            && Wait(s, fetched, held) < Wait(s, server, held))
      && (!Data.Available(s.data, server.data) ==> Wait(s, server, held) >= 9)
  {
    NextStays(s, server, AddrTick, held);
    Address.PushEndsPass(s.addr, server.addr, held.addr);
    Address.CountsDown(s.addr, server.addr, held.addr);
    NextStays(s, Next(s, server, AddrTick, held), DmaTick, held);
  }

  // A cycle of the data program after that shows a word, or brings one nearer.
  lemma ShowGetsNearer(s: Setting, server: Server, held: Held)
    requires Valid(s, server)
    ensures Valid(s, Next(s, server, DataTick, held))
    ensures var next := Next(s, server, DataTick, held);
      && (Data.Available(s.data, server.data) ==>
            || Data.ShownCount(s.data, next.data) > Data.ShownCount(s.data, server.data)
            || Wait(s, next, held) < Data.ToShow(s.data, server.data, held.data) <= 8)
      && (!Data.Available(s.data, server.data) ==> Wait(s, next, held) == Wait(s, server, held))
  {
    NextStays(s, server, DataTick, held);
    if Data.Available(s.data, server.data) {
      Data.CycleGetsNearer(s.data, server.data, held.data);
    } else {
      Data.WaitsForAWord(s.data, server.data, held.data);
    }
  }

  // A round shows a word, or brings one nearer.
  lemma OneRound(s: Setting, server: Server, held: Held)
    requires Valid(s, server)
    ensures Data.ShownCount(s.data, Run(s, server, ROUND, held).data) >= Data.ShownCount(s.data, server.data)
    ensures Data.ShownCount(s.data, Run(s, server, ROUND, held).data) > Data.ShownCount(s.data, server.data)
            || Wait(s, Run(s, server, ROUND, held), held) < Wait(s, server, held)
  {
    RoundIs(s, server, held);
    FetchGetsNearer(s, server, held);
    var fetched := Next(s, Next(s, server, AddrTick, held), DmaTick, held);
    ShowGetsNearer(s, fetched, held);
    NextStays(s, fetched, DataTick, held);
  }

  lemma {:induction false} RunJoins(s: Setting, server: Server, first: seq<Tick>, second: seq<Tick>, held: Held)
    requires Valid(s, server)
    ensures Run(s, server, first + second, held) == Run(s, Run(s, server, first, held), second, held)
    decreases |second|
  {
    if second == [] {
      assert first + second == first;
    } else {
      RunJoins(s, server, first, second[..|second| - 1], held);
      assert (first + second)[..|first + second| - 1] == first + second[..|second| - 1];
    }
  }

  // A count that a shrinking wait makes grow.
  predicate Grows(count: nat -> nat, wait: nat -> nat, n: nat)
  {
    count(n + 1) >= count(n) && (count(n + 1) > count(n) || wait(n + 1) < wait(n))
  }

  lemma {:induction false} CountNeverFalls(count: nat -> nat, wait: nat -> nat, m: nat, n: nat)
    requires m <= n && forall i: nat :: Grows(count, wait, i)
    ensures count(m) <= count(n)
    decreases n - m
  {
    if m < n {
      assert Grows(count, wait, n - 1);
      CountNeverFalls(count, wait, m, n - 1);
    }
  }

  lemma {:induction false} CountGrowsOnce(count: nat -> nat, wait: nat -> nat, m: nat, n: nat)
    requires n > m + wait(m) && forall i: nat :: Grows(count, wait, i)
    ensures count(n) > count(m)
    decreases n - m
  {
    assert Grows(count, wait, m);
    if count(m + 1) == count(m) {
      CountGrowsOnce(count, wait, m + 1, n);
    } else {
      CountNeverFalls(count, wait, m + 1, n);
    }
  }

  lemma {:induction false} CountReaches(count: nat -> nat, wait: nat -> nat, most: nat, k: nat)
    requires forall i: nat :: Grows(count, wait, i) && wait(i) <= most
    ensures count(k * (most + 1)) >= count(0) + k
  {
    if k > 0 {
      CountReaches(count, wait, most, k - 1);
      MulSuccessor(k - 1, most + 1);
      CountGrowsOnce(count, wait, (k - 1) * (most + 1), k * (most + 1));
    }
  }

  lemma RoundsStep(s: Setting, server: Server, held: Held, n: nat)
    requires Valid(s, server)
    ensures Rounds(s, server, held, 0) == server
    ensures Rounds(s, server, held, n + 1) == Run(s, Rounds(s, server, held, n), ROUND, held)
  {
    RunJoins(s, server, RoundTicks(n), ROUND, held);
  }

  lemma RoundGrows(s: Setting, server: Server, held: Held, n: nat)
    requires Valid(s, server)
    ensures var now, next := Rounds(s, server, held, n), Rounds(s, server, held, n + 1);
      && Data.ShownCount(s.data, next.data) >= Data.ShownCount(s.data, now.data)
      && (Data.ShownCount(s.data, next.data) > Data.ShownCount(s.data, now.data)
          || Wait(s, next, held) < Wait(s, now, held))
      && Wait(s, now, held) <= LongestWait(s)
  {
    var now := Rounds(s, server, held, n);
    RoundsStep(s, server, held, n);
    OneRound(s, now, held);
    WaitWithin(s, now, held);
  }

  // k more words are shown in k times LongestWait and one more rounds, whatever was on its way.
  lemma RoundsShow(s: Setting, server: Server, held: Held, k: nat, n: nat)
    requires Valid(s, server) && n >= k * (LongestWait(s) + 1)
    ensures Data.ShownCount(s.data, Rounds(s, server, held, n).data) >= Data.ShownCount(s.data, server.data) + k
  {
    var count: nat -> nat := i => Data.ShownCount(s.data, Rounds(s, server, held, i).data);
    var wait: nat -> nat := i => Wait(s, Rounds(s, server, held, i), held);
    forall i: nat
      ensures Grows(count, wait, i) && wait(i) <= LongestWait(s)
    {
      RoundGrows(s, server, held, i);
    }
    CountReaches(count, wait, LongestWait(s), k);
    CountNeverFalls(count, wait, k * (LongestWait(s) + 1), n);
  }

  // Side by side, the three come to show the word the host's pins address, and go on showing it,
  // within a time that the words on their way, and the programs' lengths, bound.
  lemma ServesInTime(s: Setting, server: Server, held: Held, n: nat)
    requires Valid(s, server) && n >= (OnTheirWay(s, server) + 2) * (LongestWait(s) + 1)
    ensures ShowsTable(s, Rounds(s, server, held, n), held)
    ensures Rounds(s, server, held, n).addr.x == server.addr.x
  {
    RoundsShow(s, server, held, OnTheirWay(s, server) + 2, n);
    ServesHeldAddress(s, server, RoundTicks(n), held);
  }

  lemma RoundIs(s: Setting, server: Server, held: Held)
    requires Valid(s, server)
    ensures Valid(s, Next(s, server, AddrTick, held))
    ensures Valid(s, Next(s, Next(s, server, AddrTick, held), DmaTick, held))
    ensures Run(s, server, ROUND, held)
         == Next(s, Next(s, Next(s, server, AddrTick, held), DmaTick, held), DataTick, held)
  {
    NextStays(s, server, AddrTick, held);
    NextStays(s, Next(s, server, AddrTick, held), DmaTick, held);
    assert ROUND[..2] == [AddrTick, DmaTick] && [AddrTick, DmaTick][..1] == [AddrTick] && [AddrTick][..0] == [];
    assert Run(s, server, [], held) == server;
    assert Run(s, server, [AddrTick], held) == Next(s, server, AddrTick, held);
  }
}

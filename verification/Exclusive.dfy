/** Exclusive mode: one core pauses the other through the inter-core FIFOs
    (firmware/src/plugin.c).

    Each core is where it is in ora_yield, ora_enter_exclusive_mode or ora_exit_exclusive_mode, or in
    other code.  A turn is one core's next FIFO access or change of state, and cores take turns in
    any order. */
module Exclusive {

  datatype Word = Request | Ack | Resume

  datatype Pc =
    | Running      // anywhere else
    | Noticed      // in yield, a request read
    | Acking       // interrupts masked, waiting for room for the acknowledgement
    | Paused       // waiting for RESUME
    | Resumed      // RESUME read
    | Sending      // in enter, waiting for room for the request
    | Waiting      // waiting for the acknowledgement
    | Exclusive    // between enter and exit
    | Leaving      // in exit, waiting for room for RESUME

  datatype Core = Core(pc: Pc, masked: bool, inbox: seq<Word>)

  // What a core that is free to choose does with its turn.
  datatype Choice = Idle | Yield | Enter | Exit

  // A core's turn: its own state and its peer's inbox afterwards.
  function Turn(me: Core, peer: seq<Word>, depth: nat, choice: Choice): (Core, seq<Word>)
  {
    match me.pc
    case Running =>
      if choice == Enter then (me.(pc := Sending), peer)
      else if choice == Yield && me.inbox != [] then
        (me.(pc := if me.inbox[0] == Request then Noticed else Running, inbox := me.inbox[1..]), peer)
      else (me, peer)
    case Noticed => (me.(pc := Acking, masked := true), peer)
    case Acking => if |peer| < depth then (me.(pc := Paused), peer + [Ack]) else (me, peer)
    case Paused =>
      if me.inbox == [] then (me, peer)
      else (me.(pc := if me.inbox[0] == Resume then Resumed else Paused, inbox := me.inbox[1..]), peer)
    case Resumed => (me.(pc := Running, masked := false), peer)
    case Sending => if |peer| < depth then (me.(pc := Waiting), peer + [Request]) else (me, peer)
    case Waiting =>
      if me.inbox == [] then (me, peer)
      else (me.(pc := if me.inbox[0] == Ack then Exclusive else Waiting, inbox := me.inbox[1..]), peer)
    case Exclusive => (if choice == Exit then me.(pc := Leaving) else me, peer)
    case Leaving => if |peer| < depth then (me.(pc := Running), peer + [Resume]) else (me, peer)
  }

  datatype Side = Core0 | Core1

  datatype System = System(core0: Core, core1: Core)

  datatype Event = Event(side: Side, choice: Choice)

  function Step(system: System, depth: nat, event: Event): System
  {
    if event.side == Core0 then
      var (me, inbox) := Turn(system.core0, system.core1.inbox, depth, event.choice);
      System(me, system.core1.(inbox := inbox))
    else
      var (me, inbox) := Turn(system.core1, system.core0.inbox, depth, event.choice);
      System(system.core0.(inbox := inbox), me)
  }

  function Run(system: System, depth: nat, events: seq<Event>): System
    decreases |events|
  {
    if events == [] then system
    else Step(Run(system, depth, events[..|events| - 1]), depth, events[|events| - 1])
  }

  function Boot(): System { System(Core(Running, false, []), Core(Running, false, [])) }

  // ---------------------------------------------------------------------------------------------
  // What every step keeps
  // ---------------------------------------------------------------------------------------------

  predicate Quiet(pc: Pc) { pc in {Running, Resumed, Sending} }

  predicate Holding(pc: Pc) { pc in {Exclusive, Leaving} }

  predicate Granting(pc: Pc) { pc in {Noticed, Acking} }

  // Where two cores can be at once, and what is on its way between them, one way round.
  predicate Pair(me: Core, peer: Core)
  {
    || (Quiet(me.pc) && Quiet(peer.pc) && me.inbox == [] && peer.inbox == [])
    || (me.pc == Waiting && Quiet(peer.pc) && me.inbox == [] && peer.inbox == [Request])
    || (me.pc == Waiting && Granting(peer.pc) && me.inbox == [] && peer.inbox == [])
    || (me.pc == Waiting && peer.pc == Paused && me.inbox == [Ack] && peer.inbox == [])
    || (me.pc == Waiting && peer.pc == Paused && me.inbox == [] && peer.inbox == [Resume, Request])
    || (Holding(me.pc) && peer.pc == Paused && me.inbox == [] && peer.inbox == [])
    || (Quiet(me.pc) && peer.pc == Paused && me.inbox == [] && peer.inbox == [Resume])
    || (me.pc == Waiting && peer.pc == Waiting && Unread(me.inbox) && Unread(peer.inbox))
  }

  // A request, unless it has been discarded.
  predicate Unread(inbox: seq<Word>) { inbox == [] || inbox == [Request] }

  predicate MaskedWhilePaused(core: Core) { core.masked <==> core.pc in {Acking, Paused, Resumed} }

  predicate Inv(system: System)
  {
    && (Pair(system.core0, system.core1) || Pair(system.core1, system.core0))
    && MaskedWhilePaused(system.core0) && MaskedWhilePaused(system.core1)
  }

  lemma TurnKeeps(me: Core, peer: Core, depth: nat, choice: Choice)
    requires Pair(me, peer) || Pair(peer, me)
    requires MaskedWhilePaused(me)
    ensures var (next, inbox) := Turn(me, peer.inbox, depth, choice);
      && (Pair(next, peer.(inbox := inbox)) || Pair(peer.(inbox := inbox), next))
      && MaskedWhilePaused(next)
  {
  }

  lemma StepKeeps(system: System, depth: nat, event: Event)
    requires Inv(system)
    ensures Inv(Step(system, depth, event))
  {
    if event.side == Core0 {
      TurnKeeps(system.core0, system.core1, depth, event.choice);
    } else {
      TurnKeeps(system.core1, system.core0, depth, event.choice);
    }
  }

  lemma {:induction false} RunKeeps(system: System, depth: nat, events: seq<Event>)
    requires Inv(system)
    ensures Inv(Run(system, depth, events))
    decreases |events|
  {
    if events != [] {
      RunKeeps(system, depth, events[..|events| - 1]);
      StepKeeps(Run(system, depth, events[..|events| - 1]), depth, events[|events| - 1]);
    }
  }

  // ---------------------------------------------------------------------------------------------
  // Safety
  // ---------------------------------------------------------------------------------------------

  function CoreOf(system: System, side: Side): Core { if side == Core0 then system.core0 else system.core1 }

  function Other(side: Side): Side { if side == Core0 then Core1 else Core0 }

  // In every interleaving, with FIFOs of any depth, a core between enter and the RESUME its exit
  // sends has the other in its interrupt-masked wait, with nothing there to wake it.
  lemma ExclusiveMeansPeerPaused(depth: nat, events: seq<Event>, side: Side)
    requires Holding(CoreOf(Run(Boot(), depth, events), side).pc)
    ensures var peer := CoreOf(Run(Boot(), depth, events), Other(side));
            peer.pc == Paused && peer.masked && peer.inbox == []
  {
    RunKeeps(Boot(), depth, events);
  }

  // A paused core goes on only once the core it acknowledged has left exclusive mode.
  lemma OnlyResumeWakes(depth: nat, events: seq<Event>, event: Event)
    requires CoreOf(Run(Boot(), depth, events), event.side).pc == Paused
    requires CoreOf(Step(Run(Boot(), depth, events), depth, event), event.side).pc != Paused
    ensures !Holding(CoreOf(Run(Boot(), depth, events), Other(event.side)).pc)
    ensures CoreOf(Run(Boot(), depth, events), event.side).inbox != []
         && CoreOf(Run(Boot(), depth, events), event.side).inbox[0] == Resume
  {
    RunKeeps(Boot(), depth, events);
  }

  lemma NeverBothExclusive(depth: nat, events: seq<Event>)
    ensures !(Holding(Run(Boot(), depth, events).core0.pc) && Holding(Run(Boot(), depth, events).core1.pc))
  {
    RunKeeps(Boot(), depth, events);
  }

  // ora_yield never reads a word it does not expect, and no FIFO ever holds more than two.
  lemma NothingUnexpected(depth: nat, events: seq<Event>, side: Side)
    ensures var core := CoreOf(Run(Boot(), depth, events), side);
      && |core.inbox| <= 2
      && (core.pc == Running && core.inbox != [] ==> core.inbox[0] == Request)
      && (core.pc == Paused && core.inbox != [] ==> core.inbox[0] == Resume)
  {
    RunKeeps(Boot(), depth, events);
  }

  lemma StepFits(system: System, depth: nat, event: Event)
    requires |system.core0.inbox| <= depth && |system.core1.inbox| <= depth
    ensures var next := Step(system, depth, event); |next.core0.inbox| <= depth && |next.core1.inbox| <= depth
  {
  }

  // Nor more than it has room for: a word is sent only into a FIFO that is not full.
  lemma {:induction false} NeverOverfull(depth: nat, events: seq<Event>, side: Side)
    ensures |CoreOf(Run(Boot(), depth, events), side).inbox| <= depth
    decreases |events|
  {
    if events != [] {
      NeverOverfull(depth, events[..|events| - 1], Core0);
      NeverOverfull(depth, events[..|events| - 1], Core1);
      StepFits(Run(Boot(), depth, events[..|events| - 1]), depth, events[|events| - 1]);
    }
  }

  // A waiting core discards a word only where both have requested.
  lemma DiscardsOnlyRivalRequest(depth: nat, events: seq<Event>, side: Side)
    requires var core := CoreOf(Run(Boot(), depth, events), side);
      core.pc == Waiting && core.inbox != [] && core.inbox[0] != Ack
    ensures CoreOf(Run(Boot(), depth, events), Other(side)).pc == Waiting
  {
    RunKeeps(Boot(), depth, events);
  }

  // ---------------------------------------------------------------------------------------------
  // Progress
  // ---------------------------------------------------------------------------------------------

  // core0 requests, and core1 does not.
  predicate OneRequest(system: System)
  {
    && Inv(system) && system.core0.pc in {Sending, Waiting, Exclusive}
    && system.core1.pc in {Running, Noticed, Acking, Paused, Resumed}
  }

  // core0 waits until it is granted, and core1 yields.
  predicate Cooperative(event: Event) { event.choice == if event.side == Core0 then Idle else Yield }

  // Turns that must still come, and whose the next is.
  function TurnsLeft(system: System): nat
  {
    match system.core0.pc
    case Sending =>
      (match system.core1.pc
       case Running => 5
       case Resumed => 6
       case _ => 7)
    case Waiting =>
      (match system.core1.pc
       case Running => 4
       case Noticed => 3
       case Acking => 2
       case Resumed => 5
       case _ => if system.core0.inbox != [] then 1 else 6)
    case _ => 0
  }

  function NextToMove(system: System): Side
  {
    if (system.core0.pc == Sending && system.core1.pc == Running)
       || (system.core0.pc == Waiting && system.core0.inbox != []) then Core0
    else Core1
  }

  // Each turn either changes nothing or brings the grant nearer, and the turn of the core whose
  // move is next does bring it nearer.
  lemma CooperativeStep(system: System, depth: nat, event: Event)
    requires OneRequest(system) && Cooperative(event) && depth > 0
    ensures var next := Step(system, depth, event);
      && OneRequest(next)
      && (next == system || TurnsLeft(next) < TurnsLeft(system))
      && (event.side == NextToMove(system) && system.core0.pc != Exclusive ==>
            TurnsLeft(next) < TurnsLeft(system))
  {
  }

  // Both cores take a turn.
  predicate Round(events: seq<Event>)
  {
    && (exists i :: 0 <= i < |events| && events[i].side == Core0)
    && (exists i :: 0 <= i < |events| && events[i].side == Core1)
  }

  predicate AllCooperative(events: seq<Event>) { forall i :: 0 <= i < |events| ==> Cooperative(events[i]) }

  lemma {:induction false} CooperativeRun(system: System, depth: nat, events: seq<Event>)
    requires OneRequest(system) && AllCooperative(events) && depth > 0
    ensures var end := Run(system, depth, events);
      && OneRequest(end)
      && (end == system || TurnsLeft(end) < TurnsLeft(system))
      && (system.core0.pc != Exclusive && (exists i :: 0 <= i < |events| && events[i].side == NextToMove(system)) ==>
            TurnsLeft(end) < TurnsLeft(system))
    decreases |events|
  {
    if events != [] {
      var before := events[..|events| - 1];
      CooperativeRun(system, depth, before);
      CooperativeStep(Run(system, depth, before), depth, events[|events| - 1]);
      if i :| 0 <= i < |events| && events[i].side == NextToMove(system) {
        assert i < |before| ==> before[i].side == NextToMove(system);
      }
    }
  }

  function RunRounds(system: System, depth: nat, rounds: seq<seq<Event>>): System
    decreases |rounds|
  {
    if rounds == [] then system
    else Run(RunRounds(system, depth, rounds[..|rounds| - 1]), depth, rounds[|rounds| - 1])
  }

  // A single request to a core that yields is granted: within seven rounds, in whatever order the
  // cores take their turns.
  lemma {:induction false} RequestIsGranted(system: System, depth: nat, rounds: seq<seq<Event>>)
    requires OneRequest(system) && depth > 0
    requires forall i :: 0 <= i < |rounds| ==> Round(rounds[i]) && AllCooperative(rounds[i])
    ensures var end := RunRounds(system, depth, rounds);
      && OneRequest(end)
      && (end.core0.pc == Exclusive || TurnsLeft(end) + |rounds| <= TurnsLeft(system))
      && (|rounds| >= 7 ==> end.core0.pc == Exclusive)
    decreases |rounds|
  {
    if rounds != [] {
      RequestIsGranted(system, depth, rounds[..|rounds| - 1]);
      var before := RunRounds(system, depth, rounds[..|rounds| - 1]);
      CooperativeRun(before, depth, rounds[|rounds| - 1]);
    }
  }

  // The two cores run the same code, so what holds of one requesting holds of the other.
  function Swapped(system: System): System { System(system.core1, system.core0) }

  function SwappedEvent(event: Event): Event { event.(side := Other(event.side)) }

  function SwappedEvents(events: seq<Event>): (swapped: seq<Event>)
    ensures |swapped| == |events|
    ensures forall i :: 0 <= i < |events| ==> swapped[i] == SwappedEvent(events[i])
  {
    if events == [] then [] else SwappedEvents(events[..|events| - 1]) + [SwappedEvent(events[|events| - 1])]
  }

  lemma CoresAlike(system: System, depth: nat, event: Event)
    ensures Step(Swapped(system), depth, SwappedEvent(event)) == Swapped(Step(system, depth, event))
  {
  }

  lemma {:induction false} RunsAlike(system: System, depth: nat, events: seq<Event>)
    ensures Run(Swapped(system), depth, SwappedEvents(events)) == Swapped(Run(system, depth, events))
    decreases |events|
  {
    if events != [] {
      var before := events[..|events| - 1];
      RunsAlike(system, depth, before);
      CoresAlike(Run(system, depth, before), depth, events[|events| - 1]);
      assert SwappedEvents(events)[..|events| - 1] == SwappedEvents(before);
    }
  }

  function SwappedRounds(rounds: seq<seq<Event>>): (swapped: seq<seq<Event>>)
    ensures |swapped| == |rounds|
    ensures forall i :: 0 <= i < |rounds| ==> swapped[i] == SwappedEvents(rounds[i])
  {
    seq(|rounds|, i requires 0 <= i < |rounds| => SwappedEvents(rounds[i]))
  }

  lemma {:induction false} RoundsAlike(system: System, depth: nat, rounds: seq<seq<Event>>)
    ensures RunRounds(Swapped(system), depth, SwappedRounds(rounds)) == Swapped(RunRounds(system, depth, rounds))
    decreases |rounds|
  {
    if rounds != [] {
      var before := rounds[..|rounds| - 1];
      RoundsAlike(system, depth, before);
      RunsAlike(RunRounds(system, depth, before), depth, rounds[|rounds| - 1]);
      assert SwappedRounds(rounds)[..|rounds| - 1] == SwappedRounds(before);
    }
  }

  // A core that has asked for exclusive mode and not been granted it.
  predicate Requesting(pc: Pc) { pc == Sending || pc == Waiting }

  // Whichever core requests waits until it is granted, and the other yields.
  predicate CooperativeRound(side: Side, events: seq<Event>)
  {
    && Round(events)
    && forall i :: 0 <= i < |events| ==> events[i].choice == if events[i].side == side then Idle else Yield
  }

  lemma SwappedRoundCooperates(events: seq<Event>)
    requires CooperativeRound(Core1, events)
    ensures Round(SwappedEvents(events)) && AllCooperative(SwappedEvents(events))
  {
    var swapped := SwappedEvents(events);
    var i :| 0 <= i < |events| && events[i].side == Core0;
    var j :| 0 <= j < |events| && events[j].side == Core1;
    assert swapped[i].side == Core1 && swapped[j].side == Core0;
  }

  // A request by either core, when the other is not requesting too, is granted.
  lemma EitherRequestIsGranted(system: System, side: Side, depth: nat, rounds: seq<seq<Event>>)
    requires Inv(system) && depth > 0 && |rounds| >= 7
    requires Requesting(CoreOf(system, side).pc) && !Requesting(CoreOf(system, Other(side)).pc)
    requires forall i :: 0 <= i < |rounds| ==> CooperativeRound(side, rounds[i])
    ensures CoreOf(RunRounds(system, depth, rounds), side).pc == Exclusive
  {
    if side == Core0 {
      RequestIsGranted(system, depth, rounds);
    } else {
      forall i | 0 <= i < |rounds|
        ensures Round(SwappedRounds(rounds)[i]) && AllCooperative(SwappedRounds(rounds)[i])
      {
        SwappedRoundCooperates(rounds[i]);
      }
      RequestIsGranted(Swapped(system), depth, SwappedRounds(rounds));
      RoundsAlike(system, depth, rounds);
    }
  }

  // Two requests at once are never granted, from the moment both have been made: each core
  // discards the other's.
  lemma {:induction false} RivalRequestsNeverGranted(system: System, depth: nat, events: seq<Event>)
    requires Inv(system) && Requesting(system.core0.pc) && Requesting(system.core1.pc)
    ensures var end := Run(system, depth, events);
            Inv(end) && Requesting(end.core0.pc) && Requesting(end.core1.pc)
    decreases |events|
  {
    if events != [] {
      RivalRequestsNeverGranted(system, depth, events[..|events| - 1]);
      StepKeeps(Run(system, depth, events[..|events| - 1]), depth, events[|events| - 1]);
    }
  }

  lemma {:induction false} RivalRoundsNeverGranted(system: System, depth: nat, rounds: seq<seq<Event>>)
    requires Inv(system) && Requesting(system.core0.pc) && Requesting(system.core1.pc)
    ensures var end := RunRounds(system, depth, rounds);
            Inv(end) && Requesting(end.core0.pc) && Requesting(end.core1.pc)
    decreases |rounds|
  {
    if rounds != [] {
      RivalRoundsNeverGranted(system, depth, rounds[..|rounds| - 1]);
      RivalRequestsNeverGranted(RunRounds(system, depth, rounds[..|rounds| - 1]), depth, rounds[|rounds| - 1]);
    }
  }

  // So in any state the cores can be in together, a request by either core is granted if and only
  // if the other core is not requesting too.
  lemma GrantedIffNoRival(system: System, side: Side, depth: nat, rounds: seq<seq<Event>>)
    requires Inv(system) && depth > 0 && |rounds| >= 7 && Requesting(CoreOf(system, side).pc)
    requires forall i :: 0 <= i < |rounds| ==> CooperativeRound(side, rounds[i])
    ensures CoreOf(RunRounds(system, depth, rounds), side).pc == Exclusive
       <==> !Requesting(CoreOf(system, Other(side)).pc)
  {
    if Requesting(CoreOf(system, Other(side)).pc) {
      RivalRoundsNeverGranted(system, depth, rounds);
    } else {
      EitherRequestIsGranted(system, side, depth, rounds);
    }
  }

  // ---------------------------------------------------------------------------------------------
  // Leaving
  // ---------------------------------------------------------------------------------------------

  // How far a core that leaves exclusive mode, and the core it paused, are from running again: it
  // sends RESUME, and its peer reads that and unmasks its interrupts.
  function TurnsToRelease(me: Core, peer: Core): nat
  {
    if me.pc == Leaving then 3 else if peer.pc == Paused then 2 else if peer.pc == Resumed then 1 else 0
  }

  predicate Releasing(me: Core, peer: Core)
  {
    && me.pc in {Leaving, Running} && peer.pc in {Paused, Resumed, Running}
    && me.inbox == [] && !me.masked && (peer.masked <==> peer.pc != Running)
    && peer.inbox == (if me.pc == Running && peer.pc == Paused then [Resume] else [])
    && (me.pc == Leaving ==> peer.pc == Paused)
  }

  predicate ReleasingTo(system: System, side: Side, turns: nat)
  {
    var me, peer := CoreOf(system, side), CoreOf(system, Other(side));
    Releasing(me, peer) && TurnsToRelease(me, peer) <= turns
  }

  // Whose turn comes next.
  function Releases(system: System, side: Side): Side
  {
    if CoreOf(system, side).pc == Leaving then side else Other(side)
  }

  lemma ReleaseStep(system: System, side: Side, depth: nat, event: Event, turns: nat)
    requires ReleasingTo(system, side, turns) && event.choice != Enter && depth > 0
    ensures ReleasingTo(Step(system, depth, event), side, turns)
    ensures Step(system, depth, event) == system
            || (turns > 0 && ReleasingTo(Step(system, depth, event), side, turns - 1))
    ensures event.side == Releases(system, side) && turns > 0 ==>
              ReleasingTo(Step(system, depth, event), side, turns - 1)
  {
  }

  predicate NoneEnters(events: seq<Event>) { forall i :: 0 <= i < |events| ==> events[i].choice != Enter }

  lemma {:induction false} ReleaseRun(system: System, side: Side, depth: nat, events: seq<Event>, turns: nat)
    requires ReleasingTo(system, side, turns) && NoneEnters(events) && depth > 0
    ensures var end := Run(system, depth, events);
      && ReleasingTo(end, side, turns)
      && (end == system || (turns > 0 && ReleasingTo(end, side, turns - 1)))
      && (turns > 0 && (exists i :: 0 <= i < |events| && events[i].side == Releases(system, side)) ==>
            ReleasingTo(end, side, turns - 1))
    decreases |events|
  {
    if events != [] {
      var before := events[..|events| - 1];
      ReleaseRun(system, side, depth, before, turns);
      ReleaseStep(Run(system, depth, before), side, depth, events[|events| - 1], turns);
      if turns > 0 && ReleasingTo(Run(system, depth, before), side, turns - 1) {
        ReleaseStep(Run(system, depth, before), side, depth, events[|events| - 1], turns - 1);
      }
      if i :| 0 <= i < |events| && events[i].side == Releases(system, side) {
        assert i < |before| ==> before[i].side == Releases(system, side);
      }
    }
  }

  // Both cores run, unmasked, with nothing left to read.
  predicate BothRun(system: System)
  {
    forall side: Side :: CoreOf(system, side) == Core(Running, false, [])
  }

  lemma {:induction false} ReleaseRounds(system: System, side: Side, depth: nat, rounds: seq<seq<Event>>)
    requires ReleasingTo(system, side, 3) && depth > 0
    requires forall i :: 0 <= i < |rounds| ==> Round(rounds[i]) && NoneEnters(rounds[i])
    ensures ReleasingTo(RunRounds(system, depth, rounds), side, if |rounds| >= 3 then 0 else 3 - |rounds|)
    decreases |rounds|
  {
    if rounds != [] {
      var before, last := rounds[..|rounds| - 1], rounds[|rounds| - 1];
      ReleaseRounds(system, side, depth, before);
      var turns: nat := if |before| >= 3 then 0 else 3 - |before|;
      ReleaseRun(RunRounds(system, depth, before), side, depth, last, turns);
    }
  }

  // Exit releases the peer: within three rounds of the turn in which a core that is exclusive
  // leaves, both cores are running again, unmasked, and no word is left over.
  lemma ExitReleasesPeer(system: System, side: Side, depth: nat, rounds: seq<seq<Event>>)
    requires Inv(system) && CoreOf(system, side).pc == Exclusive && depth > 0 && |rounds| >= 3
    requires forall i :: 0 <= i < |rounds| ==> Round(rounds[i]) && NoneEnters(rounds[i])
    ensures BothRun(RunRounds(Step(system, depth, Event(side, Exit)), depth, rounds))
  {
    ReleaseRounds(Step(system, depth, Event(side, Exit)), side, depth, rounds);
  }

  // A core that calls enter is granted it, and its peer is then paused.
  lemma EnterIsGranted(system: System, side: Side, depth: nat, rounds: seq<seq<Event>>)
    requires Inv(system) && depth > 0 && |rounds| >= 7
    requires CoreOf(system, side).pc == Running && !Requesting(CoreOf(system, Other(side)).pc)
    requires forall i :: 0 <= i < |rounds| ==> CooperativeRound(side, rounds[i])
    ensures var granted := RunRounds(Step(system, depth, Event(side, Enter)), depth, rounds);
      Inv(granted) && CoreOf(granted, side).pc == Exclusive
  {
    var entered := Step(system, depth, Event(side, Enter));
    StepKeeps(system, depth, Event(side, Enter));
    EitherRequestIsGranted(entered, side, depth, rounds);
    RoundsKeep(entered, depth, rounds);
  }

  lemma HoldingPausesPeer(system: System, side: Side)
    requires Inv(system) && Holding(CoreOf(system, side).pc)
    ensures var peer := CoreOf(system, Other(side)); peer.pc == Paused && peer.masked && peer.inbox == []
  {
  }

  // The whole of it: a core enters, is granted, leaves, and the system is as it was at boot, ready
  // for either core to enter again.
  lemma EnterToExit(system: System, side: Side, depth: nat, entering: seq<seq<Event>>, leaving: seq<seq<Event>>)
    requires Inv(system) && depth > 0 && |entering| >= 7 && |leaving| >= 3
    requires CoreOf(system, side).pc == Running && !Requesting(CoreOf(system, Other(side)).pc)
    requires forall i :: 0 <= i < |entering| ==> CooperativeRound(side, entering[i])
    requires forall i :: 0 <= i < |leaving| ==> Round(leaving[i]) && NoneEnters(leaving[i])
    ensures var granted := RunRounds(Step(system, depth, Event(side, Enter)), depth, entering);
      && CoreOf(granted, side).pc == Exclusive
      && CoreOf(granted, Other(side)).pc == Paused && CoreOf(granted, Other(side)).masked
      && BothRun(RunRounds(Step(granted, depth, Event(side, Exit)), depth, leaving))
  {
    var granted := RunRounds(Step(system, depth, Event(side, Enter)), depth, entering);
    EnterIsGranted(system, side, depth, entering);
    HoldingPausesPeer(granted, side);
    ExitReleasesPeer(granted, side, depth, leaving);
  }

  // A core that is exclusive stays so, and its peer paused, until it leaves.
  lemma {:induction false} ExclusiveUntilExit(system: System, side: Side, depth: nat, events: seq<Event>)
    requires Inv(system) && CoreOf(system, side).pc == Exclusive
    requires forall i :: 0 <= i < |events| && events[i].side == side ==> events[i].choice != Exit
    ensures Run(system, depth, events) == system
    decreases |events|
  {
    if events != [] { ExclusiveUntilExit(system, side, depth, events[..|events| - 1]); }
  }

  lemma {:induction false} RoundsKeep(system: System, depth: nat, rounds: seq<seq<Event>>)
    requires Inv(system)
    ensures Inv(RunRounds(system, depth, rounds))
    decreases |rounds|
  {
    if rounds != [] {
      RoundsKeep(system, depth, rounds[..|rounds| - 1]);
      RunKeeps(RunRounds(system, depth, rounds[..|rounds| - 1]), depth, rounds[|rounds| - 1]);
    }
  }

  // ---------------------------------------------------------------------------------------------
  // Without a plugin on the other core
  // ---------------------------------------------------------------------------------------------

  // Where nothing reads the other core's FIFO, enter returns at once and exit still sends RESUME.
  // The RESUMEs that `calls` calls of exit have sent.
  function SentAlone(depth: nat, calls: nat): seq<Word>
  {
    if calls == 0 then []
    else
      var (me, inbox) := Turn(Core(Leaving, false, []), SentAlone(depth, calls - 1), depth, Idle);
      inbox
  }

  // Once they fill the FIFO, exit does not return.
  lemma {:induction false} ExitAloneEndsInASpin(depth: nat, calls: nat)
    ensures |SentAlone(depth, calls)| == if calls < depth then calls else depth
    ensures Turn(Core(Leaving, false, []), SentAlone(depth, calls), depth, Idle).0.pc == Leaving <==> calls >= depth
  {
    if calls > 0 {
      ExitAloneEndsInASpin(depth, calls - 1);
    }
  }
}

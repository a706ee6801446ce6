/** The LED engine: requests, held modes, animation frames and the frame timer
    (firmware/src/piodma/pioled.c). */
module Led {
  import opened Options
  import opened Words
  import opened WrapTime
  import opened LedPin

  const LED_COUNT: nat := 2
  const STATUS: nat := 0
  const RGB: nat := 1

  const REQUEST_MIN_SIZE: nat := 16
  const MAX_HOLD_MS: nat := 60000
  const BEACON_DEFAULT_DURATION_MS: nat := 2500
  const MIN_FRAME_MS: nat := 10
  const DEFAULT_BRIGHTNESS: nat := 25
  const CYCLE_STEPS: nat := 100
  const BREATHE_STEPS: nat := 100
  const FLAME_DEFAULT_PERIOD_MS: nat := 575

  datatype Mode = Off | On | Beacon | Flame | Cycle | Breathe | Blink

  datatype Result = Ok | InvalidArg | InvalidSize | NotSupported

  // ---------------------------------------------------------------------------------------------
  // Modes
  // ---------------------------------------------------------------------------------------------

  function ModeOf(mode: nat): Mode
    requires mode <= 6
  {
    [Off, On, Beacon, Flame, Cycle, Breathe, Blink][mode]
  }

  predicate Repeats(mode: Mode) { mode != Off && mode != On }

  predicate NeedsColour(mode: Mode) { mode == Cycle || mode == Breathe }

  function DefaultPeriod(mode: Mode): nat
  {
    match mode
    case Cycle => 5000
    case Breathe => 5000
    case Blink => 1000
    case Beacon => 100
    case Flame => FLAME_DEFAULT_PERIOD_MS
    case _ => 0
  }

  function MinPeriod(mode: Mode): nat
  {
    match mode
    case Cycle => 1000
    case Breathe => 1000
    case Blink => 50
    case Beacon => 50
    case Flame => 500
    case _ => 0
  }

  function ModeSteps(mode: Mode): nat
  {
    match mode
    case Cycle => CYCLE_STEPS
    case Breathe => BREATHE_STEPS
    case Blink => 2
    case Beacon => 2
    case _ => 1
  }

  // The flame's flicker: lit or dark, and for how many milliseconds.
  const FLAME_TABLE: seq<(bool, nat)> := [
    (true, 60), (true, 40), (false, 15), (true, 35), (true, 55),
    (false, 20), (true, 70), (false, 10), (true, 45), (true, 30),
    (false, 25), (true, 50), (true, 65), (false, 15), (true, 40)]

  // What an LED is set to.
  datatype Settings = Settings(mode: Mode, brightness: nat, red: nat, green: nat, blue: nat, period: nat)

  function FrameInterval(s: Settings): nat
  {
    var interval := s.period / ModeSteps(s.mode);
    if interval < MIN_FRAME_MS then MIN_FRAME_MS else interval
  }

  // A step of the flame, its table stretched to the period.
  function FlameInterval(s: Settings, step: nat): nat
    requires step < |FLAME_TABLE|
  {
    var entry := FLAME_TABLE[step].1 * s.period / FLAME_DEFAULT_PERIOD_MS;
    if entry < 1 then 1 else entry
  }

  // ---------------------------------------------------------------------------------------------
  // Colours
  // ---------------------------------------------------------------------------------------------

  // A colour at a brightness, in percent, and a level of a fade, out of 255.
  function Scaled(colour: nat, brightness: nat, level: nat): nat { colour * (brightness * level) / 25500 }

  // Green, red and blue, as the LED takes them.
  function Pixel(brightness: nat, red: nat, green: nat, blue: nat, level: nat): nat
  {
    Scaled(green, brightness, level) * 0x1_0000 + Scaled(red, brightness, level) * 0x100
    + Scaled(blue, brightness, level)
  }

  lemma ScaledFits(colour: nat, brightness: nat, level: nat)
    requires colour <= 255 && brightness <= 100 && level <= 255
    ensures brightness * level <= 25500 && colour * (brightness * level) < WORD
    ensures Scaled(colour, brightness, level) <= colour
  {
    assert brightness * level <= 100 * level;
    MulMonotone(brightness * level, 25500, colour);
    MulCommutes(brightness * level, colour);
  }

  // No colour spills into another, and nothing leaves the 24 bits or overflows on the way.
  lemma PixelFits(brightness: nat, red: nat, green: nat, blue: nat, level: nat)
    requires brightness <= 100 && red <= 255 && green <= 255 && blue <= 255 && level <= 255
    ensures Pixel(brightness, red, green, blue, level) < 0x100_0000
    ensures Pixel(brightness, red, green, blue, level) / 0x1_0000 <= green
    ensures Pixel(brightness, red, green, blue, level) / 0x100 % 0x100 <= red
    ensures Pixel(brightness, red, green, blue, level) % 0x100 <= blue
  {
    ScaledFits(red, brightness, level);
    ScaledFits(green, brightness, level);
    ScaledFits(blue, brightness, level);
    Packed(Scaled(green, brightness, level), Scaled(red, brightness, level), Scaled(blue, brightness, level));
  }

  lemma Packed(g: nat, r: nat, b: nat)
    requires g < 0x100 && r < 0x100 && b < 0x100
    ensures var pixel := g * 0x1_0000 + r * 0x100 + b;
      pixel < 0x100_0000 && pixel / 0x1_0000 == g && pixel / 0x100 % 0x100 == r && pixel % 0x100 == b
  {
    assert (g * 0x1_0000 + r * 0x100 + b) / 0x100 == g * 0x100 + r;
  }

  // The colour at a place on the hue circle, of 1536.
  function HueAt(position: nat): (nat, nat, nat)
  {
    var ramp, along := position / 256, position % 256;
    var back := 255 - along;
    if ramp == 0 then (255, along, 0)
    else if ramp == 1 then (back, 255, 0)
    else if ramp == 2 then (0, 255, along)
    else if ramp == 3 then (0, back, 255)
    else if ramp == 4 then (along, 0, 255)
    else (255, 0, back)
  }

  function Hue(step: nat): (nat, nat, nat) { HueAt(step * 1536 / CYCLE_STEPS) }

  // How far up its fade a breathe step is.
  function BreatheLevel(step: nat): (level: nat)
    requires step <= BREATHE_STEPS
    ensures level <= 255
  {
    var half := BREATHE_STEPS / 2;
    if step < half then step * 255 / half else (BREATHE_STEPS - step) * 255 / half
  }

  // ---------------------------------------------------------------------------------------------
  // Channels
  // ---------------------------------------------------------------------------------------------

  // What one LED is doing.  An expiry of 0 is no hold.
  datatype Channel = Channel(now: Settings, saved: Settings, step: nat, lit: bool, nextFrame: nat, expiry: nat)

  datatype Request = Request(size: nat, led: nat, mode: nat, brightness: nat, red: nat, green: nat, blue: nat,
                             period: nat, hold: nat)
  {
    // The fields' types.
    predicate Typed()
    {
      brightness < 256 && red < 256 && green < 256 && blue < 256 && period < 0x1_0000
    }
  }

  // Which LEDs a board has, and whether they share a pin.
  datatype Board = Board(hasStatus: bool, hasRgb: bool, shared: bool)
  {
    predicate Has(led: nat) { if led == RGB then hasRgb else hasStatus }
  }

  function Verdict(board: Board, request: Option<Request>): Result
  {
    if request.None? then InvalidArg
    else
      var r := request.value;
      if r.size < REQUEST_MIN_SIZE then InvalidSize
      else if r.led >= LED_COUNT || r.mode > 6 then InvalidArg
      else if NeedsColour(ModeOf(r.mode)) && r.led != RGB then InvalidArg
      else if r.brightness > 100 || r.hold > MAX_HOLD_MS then InvalidArg
      else if r.period != 0 && r.period < MinPeriod(ModeOf(r.mode)) then InvalidArg
      else if !board.Has(r.led) then NotSupported
      else Ok
  }

  // What a request sets an LED to.  The status LED has no colour.
  function Asked(r: Request): Settings
    requires r.mode <= 6
  {
    var mode := ModeOf(r.mode);
    var period := if r.period != 0 then r.period else DefaultPeriod(mode);
    if r.led == RGB then
      var brightness := if r.brightness != 0 then r.brightness else DEFAULT_BRIGHTNESS;
      if r.red == 0 && r.green == 0 && r.blue == 0 then Settings(mode, brightness, 255, 0, 0, period)
      else Settings(mode, brightness, r.red, r.green, r.blue, period)
    else Settings(mode, 0, 0, 0, 0, period)
  }

  function HoldOf(r: Request): nat
    requires r.mode <= 6
  {
    if ModeOf(r.mode) == Beacon && r.hold == 0 then BEACON_DEFAULT_DURATION_MS else r.hold
  }

  // Zero is no hold, so a hold does not end there.
  function Expiry(nowMs: nat, hold: nat): nat
  {
    var expiry := Low32(nowMs + hold);
    if expiry == 0 then 1 else expiry
  }

  function AfterSet(ch: Channel, r: Request, nowMs: nat): Channel
    requires r.mode <= 6
  {
    var asked, hold := Asked(r), HoldOf(r);
    var already := ch.expiry != 0 || ch.now.mode == Beacon;
    Channel(asked,
            if hold != 0 && !already then ch.now else ch.saved,
            0,
            asked.mode != Off,
            if Repeats(asked.mode) then Low32(nowMs + FrameInterval(asked)) else ch.nextFrame,
            if hold != 0 then Expiry(nowMs, hold) else ch.expiry)
  }

  function AfterRestore(ch: Channel, nowMs: nat): Channel
  {
    Channel(ch.saved, ch.saved, 0, ch.saved.mode != Off,
            if Repeats(ch.saved.mode) then nowMs else ch.nextFrame, 0)
  }

  function AfterAdvance(ch: Channel, nowMs: nat): Channel
  {
    if Before(nowMs, ch.nextFrame) then ch
    else
      var next := Low32(nowMs + FrameInterval(ch.now));
      match ch.now.mode
      case Beacon => ch.(step := (ch.step + 1) % 2, lit := !ch.lit, nextFrame := next)
      case Flame =>
        var step := (ch.step + 1) % |FLAME_TABLE|;
        ch.(step := step, lit := FLAME_TABLE[step].0, nextFrame := Low32(nowMs + FlameInterval(ch.now, step)))
      case Cycle => ch.(step := (ch.step + 1) % CYCLE_STEPS, lit := true, nextFrame := next)
      case Breathe =>
        var step := (ch.step + 1) % BREATHE_STEPS;
        ch.(step := step, lit := BreatheLevel(step) != 0, nextFrame := next)
      case Blink =>
        var step := (ch.step + 1) % 2;
        ch.(step := step, lit := step == 0, nextFrame := next)
      case _ => ch
  }

  // A frame at nowMs.  A hold that is over is restored, at laterMs.
  function AfterFrame(ch: Channel, nowMs: nat, laterMs: nat): Channel
  {
    if ch.expiry != 0 && !Before(nowMs, ch.expiry) then AfterRestore(ch, laterMs)
    else if Repeats(ch.now.mode) then AfterAdvance(ch, nowMs)
    else ch
  }

  // The pixel of an RGB channel that has just been advanced.
  function AdvancedPixel(ch: Channel): nat
    requires ch.step <= BREATHE_STEPS
  {
    var s := ch.now;
    match s.mode
    case Cycle => var (red, green, blue) := Hue(ch.step); Pixel(s.brightness, red, green, blue, 255)
    case Breathe => Pixel(s.brightness, s.red, s.green, s.blue, BreatheLevel(ch.step))
    case _ => ShownPixel(ch)
  }

  // The pixel of an RGB channel shown lit or dark.
  function ShownPixel(ch: Channel): nat
  {
    Pixel(ch.now.brightness, ch.now.red, ch.now.green, ch.now.blue, if ch.lit then 255 else 0)
  }

  // ---------------------------------------------------------------------------------------------
  // What every request and frame keeps
  // ---------------------------------------------------------------------------------------------

  predicate SettingsFit(led: nat, s: Settings)
  {
    && s.brightness <= 100 && s.red <= 255 && s.green <= 255 && s.blue <= 255 && s.period < 0x1_0000
    && (Repeats(s.mode) ==> s.period >= MinPeriod(s.mode))
    && (NeedsColour(s.mode) ==> led == RGB)
  }

  // A beacon always has a hold running, and is never what a hold returns to.
  predicate Fits(led: nat, ch: Channel)
  {
    && SettingsFit(led, ch.now) && SettingsFit(led, ch.saved)
    && (ch.now.mode == Beacon ==> ch.expiry != 0)
    && (ch.expiry != 0 ==> ch.saved.mode != Beacon)
    && ch.step < 100 && ch.nextFrame < WORD && ch.expiry < WORD
  }

  // Every interval is at least a millisecond, and well short of a wrap.
  lemma IntervalBounds(led: nat, s: Settings, step: nat)
    requires SettingsFit(led, s) && Repeats(s.mode) && step < |FLAME_TABLE|
    ensures 10 <= FrameInterval(s) < 0x1_0000
    ensures s.mode == Flame ==> 8 <= FlameInterval(s, step) < 0x1_0000
  {
    if s.mode == Flame {
      var ms := FLAME_TABLE[step].1;
      assert 10 <= ms <= 70;
      MulMonotone(10, ms, s.period);
      MulMonotone(ms, 70, s.period);
      FlameScaled(ms, s.period, ms * s.period);
    }
  }

  lemma FlameScaled(ms: nat, period: nat, product: nat)
    requires 10 <= ms <= 70 && 500 <= period < 0x1_0000 && 10 * period <= product <= 70 * period
    ensures 8 <= product / FLAME_DEFAULT_PERIOD_MS < 0x1_0000
  {
  }

  lemma SetFits(board: Board, ch: Channel, r: Request, nowMs: nat)
    requires r.Typed() && Verdict(board, Some(r)) == Ok && Fits(r.led, ch)
    ensures Fits(r.led, AfterSet(ch, r, nowMs))
  {
  }

  lemma FrameFits(led: nat, ch: Channel, nowMs: nat, laterMs: nat)
    requires Fits(led, ch) && laterMs < WORD
    ensures Fits(led, AfterFrame(ch, nowMs, laterMs))
  {
  }

  // ---------------------------------------------------------------------------------------------
  // Whole runs, in unbounded time
  // ---------------------------------------------------------------------------------------------

  // An accepted request for the LED, or a frame, in milliseconds since the timer started.
  datatype Event = Ask(r: Request, at: nat) | Frame(at: nat, later: nat)

  // A channel, with its deadlines and the time it was last at, none of them wrapped.
  datatype Tracked = Tracked(ch: Channel, until: nat, next: nat, now: nat)

  // When a hold asked for at a time ends.
  function Until(at: nat, hold: nat): nat { if Low32(at + hold) == 0 then at + hold + 1 else at + hold }

  // How long after an advance the next is.
  function AdvanceInterval(after: Channel): nat
  {
    if after.now.mode == Flame then FlameInterval(after.now, after.step % |FLAME_TABLE|)
    else FrameInterval(after.now)
  }

  function Next(t: Tracked, event: Event): Tracked
    requires event.Ask? ==> event.r.mode <= 6
  {
    match event
    case Ask(r, at) =>
      var after := AfterSet(t.ch, r, Low32(at));
      Tracked(after,
              if HoldOf(r) != 0 then Until(at, HoldOf(r)) else t.until,
              if Repeats(after.now.mode) then at + FrameInterval(after.now) else t.next,
              at)
    case Frame(at, later) =>
      var after := AfterFrame(t.ch, Low32(at), Low32(later));
      if t.ch.expiry != 0 && at >= t.until then
        Tracked(after, t.until, if Repeats(after.now.mode) then later else t.next, later)
      else if Repeats(t.ch.now.mode) && at >= t.next then
        Tracked(after, t.until, at + AdvanceInterval(after), at)
      else Tracked(after, t.until, t.next, at)
  }

  // The furthest ahead a deadline can be, and the latest a frame can come after one.
  const AHEAD: nat := 0x1_0000
  const LATE: nat := 0x7FFE_0000

  // The 32-bit fields are the unbounded times, wrapped.
  predicate Follows(led: nat, t: Tracked)
  {
    && Fits(led, t.ch)
    && (t.ch.expiry != 0 ==> t.ch.expiry == Low32(t.until) && t.until <= t.now + AHEAD)
    && (Repeats(t.ch.now.mode) ==> t.ch.nextFrame == Low32(t.next) && t.next <= t.now + AHEAD)
  }

  // The event comes no earlier than the last, and no later than LATE after a deadline.
  predicate Timely(board: Board, led: nat, t: Tracked, event: Event)
  {
    && event.at >= t.now
    && (t.ch.expiry != 0 ==> event.at < t.until + LATE)
    && (Repeats(t.ch.now.mode) ==> event.at < t.next + LATE)
    && match event
       case Ask(r, at) => r.Typed() && r.led == led && Verdict(board, Some(r)) == Ok
       case Frame(at, later) => later >= at
  }

  lemma ExpiryIsUntil(at: nat, hold: nat)
    requires hold <= MAX_HOLD_MS
    ensures Expiry(Low32(at), hold) == Low32(Until(at, hold)) && Expiry(Low32(at), hold) != 0
    ensures Until(at, hold) <= at + AHEAD
  {
    LowAdds(at, hold);
    LowAdds(at + hold, 1);
  }

  // A hold ends at the first frame at or after its end, and not before, across the wrap.
  lemma HoldEndsOnTime(board: Board, led: nat, t: Tracked, at: nat, later: nat)
    requires Follows(led, t) && t.ch.expiry != 0 && Timely(board, led, t, Frame(at, later))
    ensures AfterFrame(t.ch, Low32(at), Low32(later)).expiry == 0 <==> at >= t.until
    ensures at >= t.until ==> AfterFrame(t.ch, Low32(at), Low32(later)).now == t.ch.saved
    ensures at < t.until ==>
      var after := AfterFrame(t.ch, Low32(at), Low32(later));
      after.now == t.ch.now && after.saved == t.ch.saved && after.expiry == t.ch.expiry
  {
    DiffExact(at, t.until);
  }

  lemma AskFollows(board: Board, led: nat, t: Tracked, r: Request, at: nat)
    requires led < LED_COUNT && Follows(led, t) && Timely(board, led, t, Ask(r, at))
    ensures Follows(led, Next(t, Ask(r, at)))
  {
    SetFits(board, t.ch, r, Low32(at));
    if HoldOf(r) != 0 { ExpiryIsUntil(at, HoldOf(r)); }
    if Repeats(Asked(r).mode) {
      IntervalBounds(led, Asked(r), 0);
      LowAdds(at, FrameInterval(Asked(r)));
    }
  }

  lemma FrameFollows(board: Board, led: nat, t: Tracked, at: nat, later: nat)
    requires led < LED_COUNT && Follows(led, t) && Timely(board, led, t, Frame(at, later))
    ensures Follows(led, Next(t, Frame(at, later)))
  {
    FrameFits(led, t.ch, Low32(at), Low32(later));
    if t.ch.expiry != 0 {
      HoldEndsOnTime(board, led, t, at, later);
    }
    if !(t.ch.expiry != 0 && at >= t.until) && Repeats(t.ch.now.mode) {
      DiffExact(at, t.next);
      if at >= t.next {
        AdvanceFollows(led, t.ch, at);
      }
    }
  }

  lemma FlameFollows(led: nat, ch: Channel, at: nat)
    requires Fits(led, ch) && ch.now.mode == Flame && !Before(Low32(at), ch.nextFrame)
    ensures var after := AfterAdvance(ch, Low32(at));
      && after.now == ch.now && after.nextFrame == Low32(at + AdvanceInterval(after))
      && AdvanceInterval(after) < AHEAD
  {
    var step := (ch.step + 1) % |FLAME_TABLE|;
    assert step % |FLAME_TABLE| == step;
    IntervalBounds(led, ch.now, step);
    LowAdds(at, FlameInterval(ch.now, step));
  }

  // The next frame of a channel advanced at a time.
  lemma AdvanceFollows(led: nat, ch: Channel, at: nat)
    requires Fits(led, ch) && Repeats(ch.now.mode) && !Before(Low32(at), ch.nextFrame)
    ensures var after := AfterAdvance(ch, Low32(at));
      && after.now == ch.now && after.nextFrame == Low32(at + AdvanceInterval(after))
      && AdvanceInterval(after) < AHEAD
  {
    if ch.now.mode == Flame {
      FlameFollows(led, ch, at);
    } else {
      IntervalBounds(led, ch.now, 0);
      LowAdds(at, FrameInterval(ch.now));
    }
  }

  lemma EventFollows(board: Board, led: nat, t: Tracked, event: Event)
    requires led < LED_COUNT && Follows(led, t) && Timely(board, led, t, event)
    ensures Follows(led, Next(t, event))
  {
    match event
    case Ask(r, at) => AskFollows(board, led, t, r, at);
    case Frame(at, later) => FrameFollows(board, led, t, at, later);
  }

  // The state after events, each of them timely.
  function Run(board: Board, led: nat, t: Tracked, events: seq<Event>): (end: Tracked)
    requires led < LED_COUNT && Follows(led, t) && AllTimely(board, led, t, events)
    ensures Follows(led, end)
    decreases |events|, 1
  {
    if events == [] then t
    else
      var before, last := events[..|events| - 1], events[|events| - 1];
      EventFollows(board, led, Run(board, led, t, before), last);
      Next(Run(board, led, t, before), last)
  }

  predicate AllTimely(board: Board, led: nat, t: Tracked, events: seq<Event>)
    requires led < LED_COUNT && Follows(led, t)
    decreases |events|, 0
  {
    events != [] ==>
      && AllTimely(board, led, t, events[..|events| - 1])
      && Timely(board, led, Run(board, led, t, events[..|events| - 1]), events[|events| - 1])
  }

  // None of the frames comes when a hold is over.
  predicate StillHeld(board: Board, led: nat, t: Tracked, events: seq<Event>)
    requires led < LED_COUNT && Follows(led, t) && AllTimely(board, led, t, events)
    decreases |events|
  {
    events != [] ==>
      && StillHeld(board, led, t, events[..|events| - 1])
      && (events[|events| - 1].Frame? ==>
            events[|events| - 1].at < Run(board, led, t, events[..|events| - 1]).until)
  }

  // Requests and frames while a hold runs, held or not, leave alone what it returns to.
  lemma {:induction false} HeldThroughout(board: Board, led: nat, t: Tracked, events: seq<Event>)
    requires led < LED_COUNT && Follows(led, t) && AllTimely(board, led, t, events)
    requires t.ch.expiry != 0 && StillHeld(board, led, t, events)
    ensures Run(board, led, t, events).ch.expiry != 0
    ensures Run(board, led, t, events).ch.saved == t.ch.saved
    decreases |events|
  {
    if events != [] {
      var before, last := events[..|events| - 1], events[|events| - 1];
      HeldThroughout(board, led, t, before);
      var middle := Run(board, led, t, before);
      match last
      case Ask(r, at) =>
        if HoldOf(r) != 0 { ExpiryIsUntil(at, HoldOf(r)); }
      case Frame(at, later) =>
        HoldEndsOnTime(board, led, middle, at, later);
    }
  }

  // When the last hold is over, the LED goes back to the mode, colour, brightness and period in
  // force before the first, whatever was asked for meanwhile.
  lemma ReturnsToBeforeTheFirst(board: Board, led: nat, t: Tracked, r: Request, at: nat,
                                events: seq<Event>, end: nat, later: nat)
    requires led < LED_COUNT && Follows(led, t) && t.ch.expiry == 0
    requires Timely(board, led, t, Ask(r, at)) && HoldOf(r) != 0
    requires Follows(led, Next(t, Ask(r, at))) && AllTimely(board, led, Next(t, Ask(r, at)), events)
    requires StillHeld(board, led, Next(t, Ask(r, at)), events)
    requires var last := Run(board, led, Next(t, Ask(r, at)), events);
      Timely(board, led, last, Frame(end, later)) && end >= last.until
    ensures var after := Next(Run(board, led, Next(t, Ask(r, at)), events), Frame(end, later)).ch;
      after.now == t.ch.now && after.expiry == 0
  {
    ExpiryIsUntil(at, HoldOf(r));
    var held := Next(t, Ask(r, at));
    HeldThroughout(board, led, held, events);
    HoldEndsOnTime(board, led, Run(board, led, held, events), end, later);
  }

  // A beacon ends: it has a hold, due within AHEAD, and a frame once that is over leaves another mode.
  lemma BeaconEnds(board: Board, led: nat, t: Tracked, at: nat, later: nat)
    requires Follows(led, t) && t.ch.now.mode == Beacon && Timely(board, led, t, Frame(at, later))
    ensures t.ch.expiry != 0 && t.until <= t.now + AHEAD
    ensures at >= t.until ==> Next(t, Frame(at, later)).ch.now.mode != Beacon
  {
    HoldEndsOnTime(board, led, t, at, later);
  }

  // ---------------------------------------------------------------------------------------------
  // The engine
  // ---------------------------------------------------------------------------------------------

  // The deadlines of a channel.
  function Deadlines(ch: Channel): seq<nat>
  {
    (if Repeats(ch.now.mode) then [ch.nextFrame] else []) + (if ch.expiry != 0 then [ch.expiry] else [])
  }

  // No deadline of a channel is further from now than they can be compared across.
  predicate Near(ch: Channel, nowMs: nat)
  {
    forall i :: 0 <= i < |Deadlines(ch)| ==> NearBy(Deadlines(ch)[i], nowMs)
  }

  predicate NearBy(deadline: nat, nowMs: nat) { 0 < Diff(deadline, nowMs) + LATE && Diff(deadline, nowMs) <= AHEAD }

  // How long until a deadline, and no time if it has passed.
  function WaitMs(deadline: nat, nowMs: nat): nat { if Diff(deadline, nowMs) > 0 then Diff(deadline, nowMs) else 0 }

  // Deadlines close to now compare with each other as they do with now.
  lemma NearCompare(a: nat, b: nat, nowMs: nat)
    requires a < WORD && b < WORD && NearBy(a, nowMs) && NearBy(b, nowMs)
    ensures Diff(a, b) == Diff(a, nowMs) - Diff(b, nowMs)
  {
    DiffLow(a, nowMs);
    DiffLow(b, nowMs);
    DifferenceLow(a, b, nowMs);
    DiffOf(a - b, Diff(a, nowMs) - Diff(b, nowMs), a, b);
  }

  lemma DifferenceLow(a: nat, b: nat, nowMs: nat)
    requires Low32(Diff(a, nowMs)) == Low32(a - nowMs) && Low32(Diff(b, nowMs)) == Low32(b - nowMs)
    ensures Low32(a - b) == Low32(Diff(a, nowMs) - Diff(b, nowMs))
  {
    LowOfDifference(a - nowMs, b - nowMs);
    LowOfDifference(Diff(a, nowMs), Diff(b, nowMs));
  }

  // A difference is told by its low bits, where it is short enough.
  lemma DiffOf(exact: int, short: int, a: nat, b: nat)
    requires exact == a - b && Low32(exact) == Low32(short) && -(WORD / 2) <= short < WORD / 2
    ensures Diff(a, b) == short
  {
    if short < 0 { SameLow(short, 1); }
  }

  lemma DiffLow(a: nat, b: nat)
    ensures Low32(Diff(a, b)) == Low32(a - b)
  {
    if Diff(a, b) < 0 { SameLow(Diff(a, b), 1); }
  }

  // Where frames are timely, deadlines can be compared.
  lemma DeadlinesNear(board: Board, led: nat, t: Tracked, event: Event)
    requires Follows(led, t) && Timely(board, led, t, event)
    ensures Near(t.ch, Low32(event.at))
  {
    if t.ch.expiry != 0 { DiffExact(t.until, event.at); }
    if Repeats(t.ch.now.mode) { DiffExact(t.next, event.at); }
  }

  // A restored channel is shown, and so is one whose frame has come.
  predicate Restored(ch: Channel, nowMs: nat) { ch.expiry != 0 && !Before(nowMs, ch.expiry) }

  predicate Advanced(ch: Channel, nowMs: nat)
  {
    !Restored(ch, nowMs) && Repeats(ch.now.mode) && !Before(nowMs, ch.nextFrame)
  }

  class Engine {
    const board: Board
    const channels: array<Channel>
    const rgb: RgbLine
    const clock: Clock

    // RUNTIME->status_led_enabled
    var statusLit: bool

    // The frame timer's alarm, and how long it was set for.
    var armed: bool
    var waitUs: nat

    ghost predicate Valid()
      reads this, channels, rgb
    {
      && channels.Length == LED_COUNT && rgb.Valid() && rgb.shared == board.shared
      && Fits(STATUS, channels[STATUS]) && Fits(RGB, channels[RGB])
    }

    constructor (board: Board, clock: Clock, statusLit: bool)
      ensures Valid() && this.board == board && this.clock == clock && this.statusLit == statusLit
      ensures fresh(channels) && fresh(rgb) && rgb.asked == []
    {
      var dark := Settings(Off, 0, 0, 0, 0, 0);
      this.board, this.clock, this.statusLit := board, clock, statusLit;
      channels := new Channel[LED_COUNT](i => Channel(dark, dark, 0, false, 0, 0));
      rgb := new RgbLine(board.shared);
      armed, waitUs := false, 0;
    }

    method ShowPixel(pixel: nat)
      requires rgb.Valid()
      modifies rgb, clock
      ensures rgb.Valid() && rgb.asked == old(rgb.asked) + [pixel] && rgb.Latest() == pixel
      ensures clock.us >= old(clock.us)
    {
      rgb.Write(pixel, clock);
    }

    // Shows an LED lit or dark.
    method Show(led: nat, lit: bool)
      requires channels.Length == LED_COUNT && led < LED_COUNT && rgb.Valid()
      modifies this`statusLit, channels, rgb, clock
      ensures channels[led] == old(channels[led]).(lit := lit)
      ensures forall i :: 0 <= i < LED_COUNT && i != led ==> channels[i] == old(channels[i])
      ensures rgb.Valid() && clock.us >= old(clock.us)
      ensures led == RGB ==> rgb.asked != [] && rgb.Latest() == ShownPixel(channels[RGB]) && statusLit == old(statusLit)
      ensures led != RGB ==> statusLit == lit && rgb.asked == old(rgb.asked)
      ensures led != RGB && rgb.asked != [] ==> rgb.Latest() == old(rgb.Latest())
    {
      channels[led] := channels[led].(lit := lit);
      if led == RGB {
        ShowPixel(ShownPixel(channels[led]));
      } else {
        statusLit := lit;
      }
    }

    // The earliest deadline of all.
    method Earliest(nowMs: nat) returns (have: bool, earliest: nat)
      requires Valid()
      ensures have <==> Deadlines(channels[0]) != [] || Deadlines(channels[1]) != []
      ensures have && Near(channels[0], nowMs) && Near(channels[1], nowMs) ==>
        && NearBy(earliest, nowMs)
        && NoneEarlier(channels[0], earliest, nowMs) && NoneEarlier(channels[1], earliest, nowMs)
      ensures have ==> earliest in Deadlines(channels[0]) || earliest in Deadlines(channels[1])
    {
      have, earliest := false, 0;
      have, earliest := EarliestOf(channels[0], have, earliest, nowMs);
      ghost var first := earliest;
      have, earliest := EarliestOf(channels[1], have, earliest, nowMs);
    }

    // Whether anything is to be waited for, and the longest that may be.
    method Rearm(nowMs: nat)
      requires Valid()
      modifies this`armed, this`waitUs, clock
      ensures Valid() && clock.us >= old(clock.us)
      ensures Covered(nowMs)
      ensures rgb.writePending ==> waitUs <= WaitMs(rgb.writeDue, Low32(clock.us))
      ensures rgb.parkPending && !rgb.writePending ==> waitUs <= WaitMs(rgb.parkDue, Low32(clock.us))
    {
      var have: bool;
      have, waitUs := ChannelsWait(nowMs);
      if rgb.parkPending || rgb.writePending {
        var nowUs := clock.NowUs();
        var soonUs := WaitMs(if rgb.writePending then rgb.writeDue else rgb.parkDue, nowUs);
        if !have || soonUs < waitUs {
          ShorterCovers(channels[0], nowMs, waitUs, soonUs);
          ShorterCovers(channels[1], nowMs, waitUs, soonUs);
          waitUs := soonUs;
        }
        have := true;
      }
      armed := have;
    }

    // How long until the earliest of the channels' deadlines, in microseconds.
    method ChannelsWait(nowMs: nat) returns (have: bool, wait: nat)
      requires Valid()
      ensures have <==> Deadlines(channels[0]) != [] || Deadlines(channels[1]) != []
      ensures Near(channels[0], nowMs) && Near(channels[1], nowMs) ==>
        WaitCovers(channels[0], nowMs, wait) && WaitCovers(channels[1], nowMs, wait)
      ensures have && Near(channels[0], nowMs) && Near(channels[1], nowMs) ==>
        WaitIsDue(channels[0], nowMs, wait) || WaitIsDue(channels[1], nowMs, wait)
    {
      var earliest: nat;
      have, earliest := Earliest(nowMs);
      wait := if have then Low32(WaitMs(earliest, nowMs) * 1000) else 0;
      LowAtMost(WaitMs(earliest, nowMs) * 1000);
      if have && Near(channels[0], nowMs) && Near(channels[1], nowMs) {
        assert WaitMs(earliest, nowMs) * 1000 < WORD;
        CoversLater(channels[0], earliest, nowMs, wait);
        CoversLater(channels[1], earliest, nowMs, wait);
        if earliest in Deadlines(channels[0]) {
          EndsAtDeadline(channels[0], earliest, nowMs, wait);
        } else {
          EndsAtDeadline(channels[1], earliest, nowMs, wait);
        }
      } else if !have {
        NothingToCover(channels[0], nowMs, wait);
        NothingToCover(channels[1], nowMs, wait);
      }
    }

    // A request, refused or carried out.
    method Set(request: Option<Request>) returns (result: Result, ghost at: nat)
      requires Valid() && (request.Some? ==> request.value.Typed())
      modifies this`statusLit, this`armed, this`waitUs, channels, rgb, clock
      ensures Valid() && result == Verdict(board, request)
      ensures result != Ok ==>
        channels[..] == old(channels[..]) && rgb.asked == old(rgb.asked) && statusLit == old(statusLit)
      ensures result == Ok ==>
        var r := request.value;
        && old(clock.us) / 1000 <= at <= clock.us / 1000
        && channels[r.led] == AfterSet(old(channels[..])[r.led], r, Low32(at))
        && channels[1 - r.led] == old(channels[..])[1 - r.led]
        && (if r.led == RGB then rgb.asked != [] && rgb.Latest() == ShownPixel(channels[RGB])
            else statusLit == channels[STATUS].lit)
        && Covered(Low32(at))
    {
      at := 0;
      result := Verdict(board, request);
      if result != Ok { return; }
      var r := request.value;
      var nowMs := clock.NowMs();
      at := clock.us / 1000;
      SetFits(board, channels[r.led], r, nowMs);
      Capture(r);
      Apply(r, nowMs);
      Rearm(nowMs);
    }

    // The alarm is set for the earliest of what is to come.
    ghost predicate Covered(nowMs: nat)
      requires channels.Length == LED_COUNT
      reads this, channels, rgb
    {
      && (armed <==> Deadlines(channels[0]) != [] || Deadlines(channels[1]) != []
                     || rgb.writePending || rgb.parkPending)
      && (Near(channels[0], nowMs) && Near(channels[1], nowMs) ==>
            WaitCovers(channels[0], nowMs, waitUs) && WaitCovers(channels[1], nowMs, waitUs))
      && (armed && !rgb.writePending && !rgb.parkPending && Near(channels[0], nowMs) && Near(channels[1], nowMs) ==>
            WaitIsDue(channels[0], nowMs, waitUs) || WaitIsDue(channels[1], nowMs, waitUs))
    }

    // What a hold returns to is captured where none is running yet.
    method Capture(r: Request)
      requires Valid() && r.led < LED_COUNT && r.mode <= 6
      modifies channels
      ensures channels[r.led] == Captured(old(channels[r.led]), r)
      ensures channels[1 - r.led] == old(channels[1 - r.led])
    {
      var ch := channels[r.led];
      var bounded := HoldOf(r) != 0 || ModeOf(r.mode) == Beacon;
      var alreadyBounded := ch.expiry != 0 || ch.now.mode == Beacon;
      if bounded && !alreadyBounded {
        channels[r.led] := ch.(saved := ch.now);
      }
    }

    method Apply(r: Request, nowMs: nat)
      requires channels.Length == LED_COUNT && rgb.Valid() && rgb.shared == board.shared
      requires r.led < LED_COUNT && r.mode <= 6
      modifies this`statusLit, channels, rgb, clock
      ensures channels[r.led] == Applied(old(channels[r.led]), r, nowMs)
      ensures channels[1 - r.led] == old(channels[1 - r.led])
      ensures rgb.Valid() && clock.us >= old(clock.us)
      ensures if r.led == RGB then rgb.asked != [] && rgb.Latest() == ShownPixel(channels[RGB])
              else statusLit == channels[STATUS].lit
    {
      var asked, hold := Asked(r), HoldOf(r);
      channels[r.led] := channels[r.led].(now := asked, step := 0);
      if hold != 0 {
        channels[r.led] := channels[r.led].(expiry := Expiry(nowMs, hold));
      }
      Show(r.led, asked.mode != Off);
      if Repeats(asked.mode) {
        channels[r.led] := channels[r.led].(nextFrame := Low32(nowMs + FrameInterval(asked)));
      }
    }

    // One channel's part of a frame.
    method FrameOne(led: nat, nowMs: nat) returns (ghost later: nat)
      requires Valid() && led < LED_COUNT
      modifies this`statusLit, channels, rgb, clock
      ensures Valid() && old(clock.us) / 1000 <= later <= clock.us / 1000
      ensures channels[led] == AfterFrame(old(channels[led]), nowMs, Low32(later))
      ensures channels[1 - led] == old(channels[1 - led])
      ensures led == RGB && Restored(old(channels[RGB]), nowMs) ==>
        rgb.asked != [] && rgb.Latest() == ShownPixel(channels[RGB])
      ensures led == RGB && Advanced(old(channels[RGB]), nowMs) ==>
        rgb.asked != [] && rgb.Latest() == AdvancedPixel(channels[RGB])
      ensures led == STATUS && (Restored(old(channels[STATUS]), nowMs) || Advanced(old(channels[STATUS]), nowMs)) ==>
        statusLit == channels[STATUS].lit
      ensures led == STATUS || (!Restored(old(channels[RGB]), nowMs) && !Advanced(old(channels[RGB]), nowMs)) ==>
        rgb.asked == old(rgb.asked)
      ensures led == RGB ==> statusLit == old(statusLit)
    {
      later := clock.us / 1000;
      var ch := channels[led];
      FrameFits(led, ch, nowMs, 0);
      if Restored(ch, nowMs) {
        later := Restore(led);
        FrameFits(led, ch, nowMs, Low32(later));
      } else if Repeats(ch.now.mode) {
        Advance(led, nowMs);
      }
    }

    method Restore(led: nat) returns (ghost later: nat)
      requires channels.Length == LED_COUNT && led < LED_COUNT && rgb.Valid()
      modifies this`statusLit, channels, rgb, clock
      ensures old(clock.us) / 1000 <= later <= clock.us / 1000 && rgb.Valid()
      ensures channels[led] == AfterRestore(old(channels[led]), Low32(later))
      ensures channels[1 - led] == old(channels[1 - led])
      ensures led == RGB ==> rgb.asked != [] && rgb.Latest() == ShownPixel(channels[RGB])
      ensures if led == STATUS then statusLit == channels[STATUS].lit && rgb.asked == old(rgb.asked)
              else statusLit == old(statusLit)
    {
      channels[led] := channels[led].(now := channels[led].saved, step := 0, expiry := 0);
      Show(led, channels[led].now.mode != Off);
      later := clock.us / 1000;
      if Repeats(channels[led].now.mode) {
        var nowMs := clock.NowMs();
        later := clock.us / 1000;
        channels[led] := channels[led].(nextFrame := nowMs);
      }
    }

    // The next step of a mode that is lit or dark.
    method StepShown(led: nat, step: nat, lit: bool, next: nat)
      requires channels.Length == LED_COUNT && led < LED_COUNT && rgb.Valid()
      modifies this`statusLit, channels, rgb, clock
      ensures rgb.Valid() && clock.us >= old(clock.us)
      ensures channels[led] == old(channels[led]).(step := step, lit := lit, nextFrame := next)
      ensures channels[1 - led] == old(channels[1 - led])
      ensures led == RGB ==> rgb.asked != [] && rgb.Latest() == ShownPixel(channels[RGB])
      ensures if led == STATUS then statusLit == lit && rgb.asked == old(rgb.asked) else statusLit == old(statusLit)
    {
      channels[led] := channels[led].(step := step);
      Show(led, lit);
      channels[led] := channels[led].(nextFrame := next);
    }

    // The next step of a mode made of colours.
    method StepColoured(step: nat, pixel: nat, lit: bool, next: nat)
      requires channels.Length == LED_COUNT && rgb.Valid()
      modifies channels, rgb, clock
      ensures rgb.Valid() && clock.us >= old(clock.us)
      ensures channels[RGB] == old(channels[RGB]).(step := step, lit := lit, nextFrame := next)
      ensures channels[STATUS] == old(channels[STATUS])
      ensures rgb.asked != [] && rgb.Latest() == pixel
    {
      ShowPixel(pixel);
      channels[RGB] := channels[RGB].(step := step, lit := lit, nextFrame := next);
    }

    method Advance(led: nat, nowMs: nat)
      requires channels.Length == LED_COUNT && led < LED_COUNT && Fits(led, channels[led]) && rgb.Valid()
      requires Repeats(channels[led].now.mode)
      modifies this`statusLit, channels, rgb, clock
      ensures rgb.Valid() && clock.us >= old(clock.us)
      ensures channels[led] == AfterAdvance(old(channels[led]), nowMs)
      ensures channels[1 - led] == old(channels[1 - led])
      ensures !Before(nowMs, old(channels[led].nextFrame)) && led == RGB ==>
        channels[RGB].step <= BREATHE_STEPS && rgb.asked != [] && rgb.Latest() == AdvancedPixel(channels[RGB])
      ensures !Before(nowMs, old(channels[led].nextFrame)) && led == STATUS ==> statusLit == channels[STATUS].lit
      ensures led == STATUS || Before(nowMs, old(channels[led].nextFrame)) ==> rgb.asked == old(rgb.asked)
      ensures led == RGB ==> statusLit == old(statusLit)
    {
      var ch := channels[led];
      if Before(nowMs, ch.nextFrame) { return; }
      var next := Low32(nowMs + FrameInterval(ch.now));
      match ch.now.mode {
        case Beacon =>
          StepShown(led, (ch.step + 1) % 2, !ch.lit, next);
        case Flame =>
          var step := (ch.step + 1) % |FLAME_TABLE|;
          StepShown(led, step, FLAME_TABLE[step].0, Low32(nowMs + FlameInterval(ch.now, step)));
        case Cycle =>
          var step := (ch.step + 1) % CYCLE_STEPS;
          var (red, green, blue) := Hue(step);
          StepColoured(step, Pixel(ch.now.brightness, red, green, blue, 255), true, next);
        case Breathe =>
          var step := (ch.step + 1) % BREATHE_STEPS;
          var level := BreatheLevel(step);
          StepColoured(step, Pixel(ch.now.brightness, ch.now.red, ch.now.green, ch.now.blue, level), level != 0, next);
        case Blink =>
          var step := (ch.step + 1) % 2;
          StepShown(led, step, step == 0, next);
        case _ =>
      }
    }

    // A frame: what the pin is owed, then each LED.
    method Frame() returns (ghost at: nat, ghost later: seq<nat>)
      requires Valid()
      modifies this`statusLit, this`armed, this`waitUs, channels, rgb, clock
      ensures Valid() && |later| == LED_COUNT && at >= old(clock.us) / 1000
      ensures forall i :: 0 <= i < LED_COUNT ==>
        at <= later[i] <= clock.us / 1000
        && channels[i] == AfterFrame(old(channels[..])[i], Low32(at), Low32(later[i]))
      ensures Restored(old(channels[..])[RGB], Low32(at)) ==>
        rgb.asked != [] && rgb.Latest() == ShownPixel(channels[RGB])
      ensures Advanced(old(channels[..])[RGB], Low32(at)) ==>
        rgb.asked != [] && rgb.Latest() == AdvancedPixel(channels[RGB])
      ensures !Restored(old(channels[..])[RGB], Low32(at)) && !Advanced(old(channels[..])[RGB], Low32(at)) ==>
        rgb.asked == old(rgb.asked)
      ensures Restored(old(channels[..])[STATUS], Low32(at)) || Advanced(old(channels[..])[STATUS], Low32(at)) ==>
        statusLit == channels[STATUS].lit
      ensures Covered(Low32(at))
    {
      var nowMs := clock.NowMs();
      at := clock.us / 1000;
      ghost var sentAt, parkAt := rgb.Service(statusLit, clock);
      ghost var laterStatus := FrameOne(STATUS, nowMs);
      ghost var laterRgb := FrameOne(RGB, nowMs);
      later := [laterStatus, laterRgb];
      assert channels[STATUS] == AfterFrame(old(channels[..])[STATUS], nowMs, Low32(laterStatus));
      assert channels[RGB] == AfterFrame(old(channels[..])[RGB], nowMs, Low32(laterRgb));
      Rearm(nowMs);
      assert Covered(Low32(at));
    }
  }

  // The request's effect, in the engine's two halves.
  function Captured(ch: Channel, r: Request): Channel
    requires r.mode <= 6
  {
    if HoldOf(r) != 0 && !(ch.expiry != 0 || ch.now.mode == Beacon) then ch.(saved := ch.now) else ch
  }

  function Applied(ch: Channel, r: Request, nowMs: nat): Channel
    requires r.mode <= 6
  {
    AfterSet(ch, r, nowMs).(saved := ch.saved)
  }

  // No deadline of a channel is before `earliest`.
  predicate NoneEarlier(ch: Channel, earliest: nat, nowMs: nat)
  {
    forall i :: 0 <= i < |Deadlines(ch)| ==> Diff(earliest, nowMs) <= Diff(Deadlines(ch)[i], nowMs)
  }

  // A wait that passes none of a channel's deadlines.
  predicate WaitCovers(ch: Channel, nowMs: nat, waitUs: nat)
  {
    forall i :: 0 <= i < |Deadlines(ch)| ==> waitUs <= WaitMs(Deadlines(ch)[i], nowMs) * 1000
  }

  // A wait that ends at one of a channel's deadlines.
  predicate WaitIsDue(ch: Channel, nowMs: nat, waitUs: nat)
  {
    exists i :: 0 <= i < |Deadlines(ch)| && waitUs == WaitMs(Deadlines(ch)[i], nowMs) * 1000
  }

  lemma ShorterCovers(ch: Channel, nowMs: nat, waitUs: nat, shorter: nat)
    ensures (WaitCovers(ch, nowMs, waitUs) && shorter <= waitUs) || Deadlines(ch) == [] ==>
              WaitCovers(ch, nowMs, shorter)
  {
  }

  lemma NothingToCover(ch: Channel, nowMs: nat, waitUs: nat)
    requires Deadlines(ch) == []
    ensures WaitCovers(ch, nowMs, waitUs)
  {
  }

  lemma EndsAtDeadline(ch: Channel, deadline: nat, nowMs: nat, waitUs: nat)
    requires deadline in Deadlines(ch) && waitUs == WaitMs(deadline, nowMs) * 1000
    ensures WaitIsDue(ch, nowMs, waitUs)
  {
    var i :| 0 <= i < |Deadlines(ch)| && Deadlines(ch)[i] == deadline;
  }

  lemma LowAtMost(x: nat)
    ensures Low32(x) <= x
  {
  }

  lemma CoversLater(ch: Channel, earliest: nat, nowMs: nat, waitUs: nat)
    requires NoneEarlier(ch, earliest, nowMs) && waitUs <= WaitMs(earliest, nowMs) * 1000
    ensures WaitCovers(ch, nowMs, waitUs)
  {
  }

  method EarliestOf(ch: Channel, had: bool, before: nat, nowMs: nat) returns (have: bool, earliest: nat)
    requires ch.nextFrame < WORD && ch.expiry < WORD && before < WORD
    ensures earliest < WORD && (have <==> had || Deadlines(ch) != [])
    ensures have ==> (had && earliest == before) || earliest in Deadlines(ch)
    ensures have && Near(ch, nowMs) && (had ==> NearBy(before, nowMs)) ==>
      && NearBy(earliest, nowMs) && NoneEarlier(ch, earliest, nowMs)
      && (had ==> Diff(earliest, nowMs) <= Diff(before, nowMs))
  {
    have, earliest := had, before;
    var deadlines := Deadlines(ch);
    for i := 0 to |deadlines|
      invariant earliest < WORD && (have <==> had || i > 0)
      invariant have ==> (had && earliest == before) || earliest in deadlines[..i]
      invariant have && Near(ch, nowMs) && (had ==> NearBy(before, nowMs)) ==>
        && NearBy(earliest, nowMs)
        && (forall j :: 0 <= j < i ==> Diff(earliest, nowMs) <= Diff(deadlines[j], nowMs))
        && (had ==> Diff(earliest, nowMs) <= Diff(before, nowMs))
    {
      if have && NearBy(earliest, nowMs) && NearBy(deadlines[i], nowMs) {
        NearCompare(deadlines[i], earliest, nowMs);
      }
      assert deadlines[..i + 1] == deadlines[..i] + [deadlines[i]];
      if !have || Diff(deadlines[i], earliest) < 0 {
        earliest := deadlines[i];
        have := true;
      }
    }
  }
}

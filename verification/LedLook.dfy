/** What an RGB LED looks like: how colours are scaled, the shapes of the hue circle and of the fade,
    and what each mode shows (firmware/src/piodma/pioled.c). */
module LedLook {
  import opened Options
  import opened Words
  import opened WrapTime
  import opened Led

  // ---------------------------------------------------------------------------------------------
  // Colours
  // ---------------------------------------------------------------------------------------------

  // A colour is scaled by its brightness and its level at once, and rounded down once.
  lemma ScaledIsExact(colour: nat, brightness: nat, level: nat)
    ensures var scaled := Scaled(colour, brightness, level);
      100 * 255 * scaled <= colour * (brightness * level) < 100 * 255 * (scaled + 1)
  {
  }

  // Full brightness and full level are the colour itself.
  lemma FullIsTheColour(red: nat, green: nat, blue: nat)
    requires red <= 255 && green <= 255 && blue <= 255
    ensures Pixel(100, red, green, blue, 255) == green * 0x1_0000 + red * 0x100 + blue
  {
    assert 100 * 255 == 25500;
    assert Scaled(red, 100, 255) == red && Scaled(green, 100, 255) == green && Scaled(blue, 100, 255) == blue;
  }

  lemma NothingIsDark(brightness: nat, red: nat, green: nat, blue: nat, level: nat)
    requires brightness == 0 || level == 0
    ensures Pixel(brightness, red, green, blue, level) == 0
  {
    assert brightness * level == 0;
    assert red * 0 == 0 && green * 0 == 0 && blue * 0 == 0;
  }

  lemma BrighterScaled(colour: nat, brightness: nat, level: nat, brighter: nat, higher: nat)
    requires brightness <= brighter && level <= higher
    ensures Scaled(colour, brightness, level) <= Scaled(colour, brighter, higher)
  {
    MulMonotone(brightness, brighter, level);
    MulMonotone(level, higher, brighter);
    MulCommutes(level, brighter);
    MulCommutes(higher, brighter);
    MulMonotone(brightness * level, brighter * higher, colour);
    MulCommutes(brightness * level, colour);
    MulCommutes(brighter * higher, colour);
  }

  // ---------------------------------------------------------------------------------------------
  // The hue circle
  // ---------------------------------------------------------------------------------------------

  predicate Saturated(hue: (nat, nat, nat))
  {
    && hue.0 <= 255 && hue.1 <= 255 && hue.2 <= 255
    && (hue.0 == 255 || hue.1 == 255 || hue.2 == 255) && (hue.0 == 0 || hue.1 == 0 || hue.2 == 0)
  }

  predicate Near(a: nat, b: nat) { a <= b + 16 && b <= a + 16 }

  predicate Follows(a: (nat, nat, nat), b: (nat, nat, nat)) { Near(a.0, b.0) && Near(a.1, b.1) && Near(a.2, b.2) }

  lemma PureHue(position: nat)
    requires position < 1536
    ensures Saturated(HueAt(position))
  {
  }

  lemma HueBeside(position: nat, next: nat)
    requires position <= next <= position + 16 && next < 1536
    ensures Follows(HueAt(position), HueAt(next))
  {
    if position / 256 == next / 256 {
      assert next % 256 == position % 256 + (next - position);
    } else {
      assert next / 256 == position / 256 + 1;
      assert next % 256 + 256 == position % 256 + (next - position);
    }
  }

  // Where a step is on the circle.
  function Place(step: nat): nat { step * 1536 / CYCLE_STEPS }

  lemma PlacesNear(step: nat)
    requires step < CYCLE_STEPS
    ensures Place(step) <= Place(step + 1) <= Place(step) + 16
    ensures Place(step) < 1536 && Hue(step) == HueAt(Place(step))
    ensures step + 1 < CYCLE_STEPS ==> Place(step + 1) < 1536 && Hue(step + 1) == HueAt(Place(step + 1))
  {
  }

  lemma NextHue(step: nat)
    requires step + 1 < CYCLE_STEPS
    ensures Follows(Hue(step), Hue(step + 1))
  {
    PlacesNear(step);
    HueBeside(Place(step), Place(step + 1));
  }

  // Every step is a pure hue, with one colour full and one absent, and a small way from the one
  // before, the last step and the first included.
  lemma HuesTurn(step: nat)
    requires step < CYCLE_STEPS
    ensures Saturated(Hue(step))
    ensures Follows(Hue(step), Hue(if step + 1 < CYCLE_STEPS then step + 1 else 0))
  {
    PlacesNear(step);
    PureHue(Place(step));
    if step + 1 < CYCLE_STEPS {
      NextHue(step);
    } else {
      LastHue();
    }
  }

  lemma LastHue()
    ensures Hue(CYCLE_STEPS - 1) == (255, 0, 15) && Hue(0) == (255, 0, 0)
  {
  }

  // The circle turns from red through green, cyan and blue: its colours a quarter apart.
  lemma HueQuarters()
    ensures Hue(0) == (255, 0, 0) && Hue(25) == (127, 255, 0) && Hue(50) == (0, 255, 255) && Hue(75) == (128, 0, 255)
  {
  }

  // ---------------------------------------------------------------------------------------------
  // The fade
  // ---------------------------------------------------------------------------------------------

  // From dark up to full and down again, the same way, rising at every step of the first half.
  lemma BreatheRisesAndFalls(step: nat)
    requires step <= BREATHE_STEPS
    ensures BreatheLevel(0) == 0 && BreatheLevel(BREATHE_STEPS / 2) == 255 && BreatheLevel(BREATHE_STEPS) == 0
    ensures BreatheLevel(step) == BreatheLevel(BREATHE_STEPS - step)
    ensures step < BREATHE_STEPS / 2 ==> BreatheLevel(step) + 5 <= BreatheLevel(step + 1) <= BreatheLevel(step) + 6
  {
  }

  // ---------------------------------------------------------------------------------------------
  // What a request shows
  // ---------------------------------------------------------------------------------------------

  // A request for the RGB LED.
  predicate ForRgb(r: Request, mode: nat) { r.Typed() && r.led == RGB && r.mode == mode && r.brightness <= 100 }

  predicate Coloured(r: Request) { r.red != 0 || r.green != 0 || r.blue != 0 }

  lemma SetTo(ch: Channel, r: Request, nowMs: nat)
    requires ForRgb(r, 1)
    ensures var after := AfterSet(ch, r, nowMs);
      && after.lit && after.now.brightness == (if r.brightness == 0 then 25 else r.brightness)
      && after.now.red == (if Coloured(r) then r.red else 255)
      && after.now.green == r.green && after.now.blue == r.blue
  {
  }

  lemma LitShows(ch: Channel)
    requires ch.lit
    ensures ShownPixel(ch) == Pixel(ch.now.brightness, ch.now.red, ch.now.green, ch.now.blue, 255)
  {
  }

  // On shows the colour asked for at once, scaled by the brightness, which is 25 percent where none
  // is given; with no colour given it is red.
  lemma OnShowsTheColour(ch: Channel, r: Request, nowMs: nat, shown: nat)
    requires ForRgb(r, 1) && shown == ShownPixel(AfterSet(ch, r, nowMs))
    ensures var brightness, red := if r.brightness == 0 then 25 else r.brightness, if Coloured(r) then r.red else 255;
            shown == Pixel(brightness, red, r.green, r.blue, 255)
    ensures r.brightness == 100 && Coloured(r) ==> shown == r.green * 0x1_0000 + r.red * 0x100 + r.blue
  {
    SetTo(ch, r, nowMs);
    LitShows(AfterSet(ch, r, nowMs));
    FullIsTheColour(r.red, r.green, r.blue);
  }

  lemma OffIsDark(ch: Channel, r: Request, nowMs: nat)
    requires ForRgb(r, 0)
    ensures ShownPixel(AfterSet(ch, r, nowMs)) == 0
  {
    var s := AfterSet(ch, r, nowMs).now;
    NothingIsDark(s.brightness, s.red, s.green, s.blue, 0);
  }

  // A frame while no hold is over: every mode but off and on goes to its next frame.
  lemma FramesAdvance(ch: Channel, nowMs: nat, laterMs: nat)
    requires ch.expiry == 0 || Before(nowMs, ch.expiry)
    ensures AfterFrame(ch, nowMs, laterMs)
         == if ch.now.mode in {Beacon, Flame, Cycle, Breathe, Blink} then AfterAdvance(ch, nowMs) else ch
  {
  }

  // Beacon and blink go dark at their first frame and light again at their second.
  lemma BeaconAndBlinkAlternate(ch: Channel, r: Request, nowMs: nat, first: nat, second: nat)
    requires ForRgb(r, 2) || ForRgb(r, 6)
    requires !Before(first, AfterSet(ch, r, nowMs).nextFrame)
    requires !Before(second, AfterAdvance(AfterSet(ch, r, nowMs), first).nextFrame)
    ensures var after := AfterSet(ch, r, nowMs);
      after.lit && !AfterAdvance(after, first).lit && AfterAdvance(AfterAdvance(after, first), second).lit
    ensures r.mode == 2 ==> AfterSet(ch, r, nowMs).expiry != 0
  {
  }

  // A cycle's first frame shows the next hue, and a breath's the next level of its colour.
  lemma CycleAndBreathe(ch: Channel, r: Request, nowMs: nat, first: nat)
    requires (ForRgb(r, 4) || ForRgb(r, 5)) && r.brightness == 100 && Coloured(r)
    requires !Before(first, AfterSet(ch, r, nowMs).nextFrame)
    ensures var frame := AfterAdvance(AfterSet(ch, r, nowMs), first);
      && frame.step == 1
      && (r.mode == 4 ==> AdvancedPixel(frame) == 15 * 0x1_0000 + 255 * 0x100)
      && (r.mode == 5 ==> AdvancedPixel(frame) == Pixel(100, r.red, r.green, r.blue, 5))
  {
    FullIsTheColour(255, 15, 0);
  }

  // A flame stays lit at its first frame and goes dark at its second.
  lemma FlameFlickers(ch: Channel, r: Request, nowMs: nat, first: nat, second: nat)
    requires ForRgb(r, 3)
    requires !Before(first, AfterSet(ch, r, nowMs).nextFrame)
    requires !Before(second, AfterAdvance(AfterSet(ch, r, nowMs), first).nextFrame)
    ensures var after := AfterSet(ch, r, nowMs);
      after.lit && AfterAdvance(after, first).lit && !AfterAdvance(AfterAdvance(after, first), second).lit
  {
  }

  // ---------------------------------------------------------------------------------------------
  // What is refused, and how fast an LED repeats
  // ---------------------------------------------------------------------------------------------

  // The shortest period a mode takes, by its number.
  function LeastPeriod(mode: nat): nat
  {
    match mode
    case 2 => 50
    case 3 => 500
    case 4 => 1000
    case 5 => 1000
    case 6 => 50
    case _ => 0
  }

  // A size too small comes first, then any argument out of its range, then an LED the board has not.
  lemma Refusals(board: Board, r: Request)
    ensures var bad := r.led > 1 || r.mode > 6 || (r.mode in {4, 5} && r.led != 1) || r.brightness > 100
                       || r.hold > 60000 || (r.period != 0 && r.period < LeastPeriod(r.mode));
      var missing := if r.led == 1 then !board.hasRgb else !board.hasStatus;
      && (Verdict(board, Some(r)) == InvalidSize <==> r.size < 16)
      && (Verdict(board, Some(r)) == InvalidArg <==> r.size >= 16 && bad)
      && (Verdict(board, Some(r)) == NotSupported <==> r.size >= 16 && !bad && missing)
      && (Verdict(board, Some(r)) == Ok <==> r.size >= 16 && !bad && !missing)
    ensures Verdict(board, None) == InvalidArg
  {
  }

  // The frames of one repetition take its period, short of a millisecond each.
  lemma RepetitionTakesItsPeriod(s: Settings)
    requires Repeats(s.mode) && s.mode != Flame && s.period >= MinPeriod(s.mode)
    ensures var taken := ModeSteps(s.mode) * FrameInterval(s); taken <= s.period < taken + ModeSteps(s.mode)
    ensures ModeSteps(s.mode) == if s.mode == Cycle || s.mode == Breathe then 100 else 2
  {
  }

  // The milliseconds of the flame's first n steps at its default period.
  function FlameTime(n: nat): nat
    requires n <= |FLAME_TABLE|
  {
    if n == 0 then 0 else FlameTime(n - 1) + FLAME_TABLE[n - 1].1
  }

  lemma FlameTakesItsPeriod()
    ensures FlameTime(|FLAME_TABLE|) == FLAME_DEFAULT_PERIOD_MS == 575
  {
    assert FlameTime(5) == 205;
    assert FlameTime(10) == 380;
  }

  // With no period given the first frame comes after the mode's own.
  lemma DefaultPace(ch: Channel, r: Request, nowMs: nat)
    requires 2 <= r.mode <= 6 && r.period == 0
    ensures AfterSet(ch, r, nowMs).nextFrame
         == Low32(nowMs + match r.mode case 2 => 50 case 3 => 575 case 6 => 500 case _ => 50)
  {
  }

  // A hold ends the asked number of milliseconds from now, a beacon's that asks for none 2.5 s.
  lemma HoldsAsAsked(ch: Channel, r: Request, nowMs: nat)
    requires r.mode <= 6 && (r.hold != 0 || r.mode == 2)
    ensures var end := Low32(nowMs + if r.hold != 0 then r.hold else 2500);
      AfterSet(ch, r, nowMs).expiry == if end == 0 then 1 else end
  {
  }
}

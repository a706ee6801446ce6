/** The RGB LED's pin: pixels handed to its state machine, or held behind a reset, and the pin's
    handover where the two LEDs share it (firmware/src/piodma/pioled.c). */
module LedPin {
  import opened Words
  import opened WrapTime

  const PARK_DELAY_US: nat := 150
  const RESET_DELAY_US: nat := 200

  function Last(pixels: seq<nat>): nat
    requires pixels != []
  {
    pixels[|pixels| - 1]
  }

  // Pixel i handed over is the one asked for at places[i].  Pixels can be left out, but never put out
  // of order.
  predicate InOrder(sent: seq<nat>, asked: seq<nat>, places: seq<nat>)
  {
    && |places| == |sent|
    && (forall i :: 0 <= i < |places| ==> places[i] < |asked| && sent[i] == asked[places[i]])
    && (forall i, j :: 0 <= i < j < |places| ==> places[i] < places[j])
  }

  // None of the places is `at` or after it.
  predicate Unsent(places: seq<nat>, at: nat) { forall i :: 0 <= i < |places| ==> places[i] < at }

  lemma AskedMore(sent: seq<nat>, asked: seq<nat>, places: seq<nat>, pixel: nat)
    requires InOrder(sent, asked, places)
    ensures InOrder(sent, asked + [pixel], places)
  {
  }

  // The last pixel asked for goes after those handed over before it was.
  lemma SentLast(sent: seq<nat>, asked: seq<nat>, places: seq<nat>)
    requires asked != [] && InOrder(sent, asked, places)
    requires Unsent(places, |asked| - 1)
    ensures InOrder(sent + [Last(asked)], asked, places + [|asked| - 1])
  {
  }

  class RgbLine {
    const shared: bool
    var claimed: bool
    var parkPending: bool
    var pinWithPio: bool
    var writePending: bool
    var parkedHigh: bool
    var resetOwed: bool
    var pendingPixel: nat
    var writeDue: nat
    var parkDue: nat

    // Every pixel asked for, and every one handed to the state machine.
    ghost var asked: seq<nat>
    ghost var sent: seq<nat>
    ghost var places: seq<nat>

    ghost predicate Valid()
      reads this
    {
      && writeDue < WORD && parkDue < WORD
      && InOrder(sent, asked, places)
      && (writePending ==> asked != [] && pendingPixel == Last(asked) && Unsent(places, |asked| - 1))
      && (!writePending && asked != [] ==> sent != [] && Last(sent) == Last(asked))
      && (parkPending ==> shared)
      && (pinWithPio ==> parkPending)
    }

    // What the LED shows, once what is held behind a reset has gone.
    ghost function Latest(): nat
      requires Valid() && asked != []
      reads this
    {
      if writePending then pendingPixel else Last(sent)
    }

    constructor (shared: bool)
      ensures Valid() && this.shared == shared && asked == [] && sent == []
    {
      this.shared := shared;
      claimed, parkPending, pinWithPio, writePending, parkedHigh, resetOwed := false, false, false, false, false, false;
      pendingPixel, writeDue, parkDue := 0, 0, 0;
      asked, sent, places := [], [], [];
    }

    method Claim(clock: Clock)
      requires Valid()
      modifies this`claimed, this`resetOwed, this`parkDue, this`parkPending, clock
      ensures Valid() && claimed && resetOwed && clock.us >= old(clock.us)
    {
      claimed := true;
      resetOwed := true;
      if shared {
        var now := clock.NowUs();
        parkDue := Low32(now + PARK_DELAY_US);
        parkPending := true;
      }
    }

    method BorrowPin(clock: Clock)
      requires Valid()
      modifies this`pinWithPio, this`parkDue, this`parkPending, clock
      ensures Valid() && clock.us >= old(clock.us) && (shared ==> pinWithPio && parkPending)
    {
      if !shared { return; }
      pinWithPio := true;
      var now := clock.NowUs();
      parkDue := Low32(now + PARK_DELAY_US);
      parkPending := true;
    }

    // The pixel waits until the line, low from now, has been low for a reset.
    method Defer(pixel: nat, clock: Clock)
      requires Valid() && (shared ==> parkPending)
      modifies this`pendingPixel, this`writeDue, this`writePending, this`resetOwed, this`parkDue, this`asked, clock
      ensures Valid() && asked == old(asked) + [pixel] && clock.us >= old(clock.us)
      ensures writeDue == Low32(Low32(clock.us) + RESET_DELAY_US) && parkDue == Low32(writeDue + PARK_DELAY_US)
      ensures writePending && pendingPixel == pixel && !resetOwed
    {
      AskedMore(sent, asked, places, pixel);
      asked := asked + [pixel];
      pendingPixel := pixel;
      var now := clock.NowUs();
      writeDue := Low32(now + RESET_DELAY_US);
      writePending := true;
      resetOwed := false;
      parkDue := Low32(writeDue + PARK_DELAY_US);
    }

    // The pixel takes the place of the one waiting.
    method Replace(pixel: nat)
      requires Valid() && writePending
      modifies this`pendingPixel, this`asked
      ensures Valid() && asked == old(asked) + [pixel] && pendingPixel == pixel
    {
      AskedMore(sent, asked, places, pixel);
      asked := asked + [pixel];
      pendingPixel := pixel;
    }

    method Send(pixel: nat)
      requires Valid() && !writePending
      modifies this`asked, this`sent, this`places
      ensures Valid() && asked == old(asked) + [pixel] && sent == old(sent) + [pixel]
    {
      AskedMore(sent, asked, places, pixel);
      asked := asked + [pixel];
      SentLast(sent, asked, places);
      sent, places := sent + [pixel], places + [|asked| - 1];
    }

    // A pixel is asked for: from now on it is the one the LED shows, straight away or once the
    // line has been low for a reset.
    method Write(pixel: nat, clock: Clock)
      requires Valid()
      modifies this, clock
      ensures Valid() && asked == old(asked) + [pixel] && Latest() == pixel && clock.us >= old(clock.us)
      ensures claimed && !resetOwed && (shared ==> pinWithPio && parkPending)
      ensures writePending == old(!claimed || resetOwed || (shared && parkedHigh) || writePending)
      ensures sent == if writePending then old(sent) else old(sent) + [pixel]
      ensures if old(!claimed || resetOwed || (shared && parkedHigh)) then
                writeDue == Low32(Low32(clock.us) + RESET_DELAY_US) && parkDue == Low32(writeDue + PARK_DELAY_US)
              else writeDue == old(writeDue)
    {
      if !claimed {
        Claim(clock);
      }
      BorrowPin(clock);
      if resetOwed || (shared && parkedHigh) {
        Defer(pixel, clock);
      } else if writePending {
        Replace(pixel);
      } else {
        Send(pixel);
      }
    }

    // The frame's part: the held pixel goes if its reset is over, and then the pin, if it is due.
    // Each of the two is judged at one time during the call.
    method Service(statusLit: bool, clock: Clock) returns (ghost sentAt: nat, ghost parkAt: nat)
      requires Valid()
      modifies this, clock
      ensures Valid() && asked == old(asked) && old(clock.us) <= sentAt <= parkAt <= clock.us
      ensures asked != [] ==> Latest() == old(Latest())
      ensures writePending <==> old(writePending) && Before(Low32(sentAt), old(writeDue))
      ensures sent == if old(writePending) && !writePending then old(sent) + [old(pendingPixel)] else old(sent)
      ensures parkPending <==> old(parkPending) && Before(Low32(parkAt), old(parkDue))
      ensures if old(parkPending) && !parkPending then !pinWithPio && parkedHigh == !statusLit
              else pinWithPio == old(pinWithPio) && parkedHigh == old(parkedHigh)
    {
      sentAt := clock.us;
      if writePending {
        var now := clock.NowUs();
        sentAt := clock.us;
        if !Before(now, writeDue) {
          SendPending();
        }
      }
      parkAt := clock.us;
      if parkPending {
        var now := clock.NowUs();
        parkAt := clock.us;
        if !Before(now, parkDue) {
          parkPending := false;
          pinWithPio := false;
          parkedHigh := !statusLit;
        }
      }
    }

    method SendPending()
      requires Valid() && writePending
      modifies this`writePending, this`sent, this`places
      ensures Valid() && !writePending && sent == old(sent) + [pendingPixel]
    {
      SentLast(sent, asked, places);
      writePending := false;
      sent, places := sent + [pendingPixel], places + [|asked| - 1];
    }
  }
}

/** The 64-bit microsecond timer, read in two halves, and the milliseconds since it started
    (firmware/src/plugin.c). */
module Timer {
  import opened Words

  // The hardware's counter.  Time goes on between one access and the next.
  class Counter {
    var now: nat

    // The values the counter had when it was read.
    ghost var instants: seq<nat>

    predicate Valid() reads this { now < WORD * WORD }

    // Some time passes.
    method Wait()
      requires Valid()
      modifies this`now
      ensures Valid() && now >= old(now)
    {
      var later :| now <= later < WORD * WORD;
      now := later;
    }

    method RawHi() returns (hi: nat)
      requires Valid()
      modifies this
      ensures Valid() && now >= old(now) && instants == old(instants) + [now]
      ensures hi == now / WORD
    {
      Wait();
      instants := instants + [now];
      hi := now / WORD;
    }

    method RawLo() returns (lo: nat)
      requires Valid()
      modifies this
      ensures Valid() && now >= old(now) && instants == old(instants) + [now]
      ensures lo == now % WORD
    {
      Wait();
      instants := instants + [now];
      lo := now % WORD;
    }

    // The pair read is the counter's value at one instant during the call.
    method TimerUs64() returns (us: nat)
      requires Valid()
      modifies this
      ensures Valid() && old(now) <= us <= now
      ensures |instants| >= |old(instants)| && us in instants[|old(instants)|..]
    {
      var hi := RawHi();
      ghost var atHi := now;
      var lo := RawLo();
      ghost var atLo, k := now, |instants| - 1;
      var hiAgain := RawHi();
      while hiAgain != hi
        invariant Valid() && old(now) <= atHi <= atLo <= now
        invariant hi == atHi / WORD && lo == atLo % WORD && hiAgain == now / WORD
        invariant |old(instants)| <= k < |instants| && instants[k] == atLo
        decreases WORD - hi
      {
        HighHalf(atHi, now);
        hi := hiAgain;
        atHi := now;
        lo := RawLo();
        atLo, k := now, |instants| - 1;
        hiAgain := RawHi();
      }
      OneInstant(atHi, atLo, now);
      us := hi * WORD + lo;
      assert instants[|old(instants)|..][k - |old(instants)|] == atLo;
    }

    method UptimeMs() returns (ms: nat)
      requires Valid()
      modifies this
      ensures Valid()
      ensures exists us :: old(now) <= us <= now && ms == us / 1000 % WORD
    {
      var us := TimerUs64();
      var hi, lo := us / WORD, us % WORD;
      var r := hi % 1000;
      MillisecondsExact(us, hi, lo);
      ms := Add32(Add32(Mul32(r, 4294967), lo / 1000), Add32(Mul32(r, 296), lo % 1000) / 1000);
    }
  }

  lemma HighHalf(earlier: nat, later: nat)
    requires earlier <= later < WORD * WORD
    ensures earlier / WORD <= later / WORD < WORD
  {
  }

  // A low half read between two equal reads of the high half belongs with them.
  lemma OneInstant(first: nat, middle: nat, last: nat)
    requires first <= middle <= last && first / WORD == last / WORD
    ensures middle == first / WORD * WORD + middle % WORD
  {
  }

  // uint32_t arithmetic.
  function Mul32(a: nat, b: nat): nat { a * b % WORD }

  function Add32(a: nat, b: nat): nat { (a + b) % WORD }

  function Milliseconds(hi: nat, lo: nat): nat
  {
    var r := hi % 1000;
    Add32(Add32(Mul32(r, 4294967), lo / 1000), Add32(Mul32(r, 296), lo % 1000) / 1000)
  }

  // The 32-bit milliseconds of a high half's remainder and a low half.
  function Pieces(r: nat, lo: nat): nat { r * 4294967 + lo / 1000 + (r * 296 + lo % 1000) / 1000 }

  lemma PiecesFit(r: nat, lo: nat)
    requires r < 1000 && lo < WORD
    ensures Pieces(r, lo) < WORD && r * 296 + lo % 1000 <= 296703
    ensures Pieces(r, lo) == (r * WORD + lo) / 1000
  {
    var rest := r * 296 + lo % 1000;
    assert r * WORD + lo == 1000 * (r * 4294967 + lo / 1000) + rest;
  }

  // 2^32 * 1000 q more microseconds are 2^32 * q more milliseconds.
  lemma WholeWraps(q: nat, us: nat)
    requires us / 1000 < WORD
    ensures (q * (1000 * WORD) + us) / 1000 % WORD == us / 1000
  {
    assert (q * (1000 * WORD) + us) / 1000 == q * WORD + us / 1000;
    ModIs(WORD * q + us / 1000, WORD, q, us / 1000);
  }

  lemma AddFits(a: nat, b: nat)
    requires a + b < WORD
    ensures Add32(a, b) == a + b
  {
  }

  lemma MulFits(a: nat, b: nat)
    requires a * b < WORD
    ensures Mul32(a, b) == a * b
  {
  }

  lemma NothingWraps(hi: nat, lo: nat)
    requires lo < WORD
    ensures Milliseconds(hi, lo) == Pieces(hi % 1000, lo)
  {
    var r, quotient, rest := hi % 1000, lo / 1000, lo % 1000;
    PiecesFit(r, lo);
    MulFits(r, 4294967);
    MulFits(r, 296);
    AddFits(r * 296, rest);
    AddFits(r * 4294967, quotient);
    AddFits(r * 4294967 + quotient, (r * 296 + rest) / 1000);
  }

  lemma HighHalfSplit(us: nat, hi: nat, lo: nat)
    requires us == hi * WORD + lo
    ensures us == hi / 1000 * (1000 * WORD) + (hi % 1000 * WORD + lo)
  {
    assert hi == hi / 1000 * 1000 + hi % 1000;
  }

  // The 32-bit pieces add up to the 64-bit quotient, and none of them overflows.
  lemma MillisecondsExact(us: nat, hi: nat, lo: nat)
    requires lo < WORD && us == hi * WORD + lo
    ensures Pieces(hi % 1000, lo) < WORD && hi % 1000 * 296 + lo % 1000 <= 296703
    ensures Milliseconds(hi, lo) == us / 1000 % WORD
  {
    NothingWraps(hi, lo);
    PiecesFit(hi % 1000, lo);
    WholeWraps(hi / 1000, hi % 1000 * WORD + lo);
    HighHalfSplit(us, hi, lo);
  }
}

/** Times kept in 32 bits, and compared across their wrap. */
module WrapTime {
  import opened Words

  function Low32(t: int): (low: nat)
    ensures low < WORD
  {
    t % WORD
  }

  // (int32_t)(a - b)
  function Diff(a: nat, b: nat): (d: int)
    ensures -(WORD / 2) <= d < WORD / 2
  {
    var d := Low32(a - b);
    if d < WORD / 2 then d else d - WORD
  }

  predicate Before(a: nat, b: nat) { Diff(a, b) < 0 }

  lemma LowOfDifference(a: int, b: int)
    ensures Low32(Low32(a) - Low32(b)) == Low32(a - b)
  {
    var qa, qb := a / WORD, b / WORD;
    assert a - b == Low32(a) - Low32(b) + WORD * (qa - qb);
    SameLow(Low32(a) - Low32(b), qa - qb);
  }

  lemma SameLow(a: int, k: int)
    ensures Low32(a + WORD * k) == Low32(a)
  {
  }

  // Times less than 2^31 apart compare as they should, wherever the wrap falls.
  lemma DiffExact(a: nat, b: nat)
    requires -(WORD / 2) <= a - b < WORD / 2
    ensures Diff(Low32(a), Low32(b)) == a - b
    ensures Before(Low32(a), Low32(b)) <==> a < b
  {
    LowOfDifference(a, b);
    if a - b < 0 {
      SameLow(a - b, 1);
    }
  }

  // A deadline a while after a time.
  lemma LowAdds(t: nat, d: nat)
    ensures Low32(Low32(t) + d) == Low32(t + d)
  {
    SameLow(Low32(t) + d, t / WORD);
  }

  // The microsecond timer, read through its low 32 bits.  Time goes on between reads.
  class Clock {
    var us: nat

    method NowUs() returns (now: nat)
      modifies this
      ensures us >= old(us) && now == Low32(us)
    {
      var later: nat :| later >= us;
      us := later;
      now := Low32(us);
    }

    method NowMs() returns (now: nat)
      modifies this
      ensures us >= old(us) && now == Low32(us / 1000)
    {
      var later: nat :| later >= us;
      us := later;
      now := Low32(us / 1000);
    }
  }
}

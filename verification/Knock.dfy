/** Knock detection: the precomputed mask and match words, and the wait for a knock in the
    address monitor's capture ring (firmware/src/piodma/pioplugin.c). */
module Knock {
  import opened Options
  import opened Words
  import opened PinMap

  // csMask, bits, dataSize and multiRomMode are for a plugin to read: matching uses none of them.
  datatype Knock = Knock(mask: nat, matches: seq<nat>, xMask: nat, csMask: nat,
                         bits: nat, dataSize: nat, multiRomMode: bool)

  datatype InitResult = Ready(knock: Knock) | InvalidArg | InternalError

  // ---------------------------------------------------------------------------------------------
  // pio_init_knock
  // ---------------------------------------------------------------------------------------------

  predicate Free(line: Line) { line.Pin? && line.over in {Normal, Invert} }

  function MaskTo(lines: seq<Line>, k: nat): nat
    requires k <= |lines|
  {
    if k == 0 then 0
    else if Free(lines[k - 1]) then SetBit(MaskTo(lines, k - 1), lines[k - 1].pos)
    else MaskTo(lines, k - 1)
  }

  function MatchTo(lines: seq<Line>, value: nat, k: nat): nat
    requires k <= |lines|
  {
    if k == 0 then 0
    else if Free(lines[k - 1]) && Level(lines[k - 1].over, Bit(value, k - 1)) then
      SetBit(MatchTo(lines, value, k - 1), lines[k - 1].pos)
    else MatchTo(lines, value, k - 1)
  }

  function XMaskTo(slot: RomSlot, k: nat): nat
    requires k <= |slot.xPins|
  {
    if k == 0 then 0
    else if slot.xPins[k - 1] < slot.numAddrPins then SetBit(XMaskTo(slot, k - 1), slot.xPins[k - 1])
    else XMaskTo(slot, k - 1)
  }

  function XMask(slot: RomSlot): nat
  {
    if slot.slotType == Multi then XMaskTo(slot, |slot.xPins|) else 0
  }

  // The select pins, as a GPIO each.  AlgCs2's is its enable alone.
  function CsCount(slot: RomSlot): nat { if slot.cs.Cs2? then 1 else slot.numCsPins }

  function CsGpio(slot: RomSlot, i: nat): nat { ((slot.csGpioBase + slot.baseCsPin) % 256 + i) % 256 }

  // Select pin i is one that counts, and in the address span.
  predicate CsInSpan(slot: RomSlot, i: nat)
  {
    && !(slot.cs.Cs1? && i == slot.cs.csIgnoreIndex)
    && slot.AddrBase() <= CsGpio(slot, i) < (slot.AddrBase() + slot.numAddrPins) % 256
  }

  function CsMaskTo(slot: RomSlot, k: nat): nat
  {
    if k == 0 then 0
    else if CsInSpan(slot, k - 1) then SetBit(CsMaskTo(slot, k - 1), CsGpio(slot, k - 1) - slot.AddrBase())
    else CsMaskTo(slot, k - 1)
  }

  method KnockCsMask(slot: RomSlot) returns (csMask: nat)
    ensures csMask == CsMaskTo(slot, CsCount(slot))
  {
    csMask := 0;
    var addrBase, csBase := slot.AddrBase(), (slot.csGpioBase + slot.baseCsPin) % 256;
    if slot.cs.Cs2? {
      if csBase >= addrBase && csBase < (addrBase + slot.numAddrPins) % 256 {
        csMask := SetBit(csMask, csBase - addrBase);
      }
      return;
    }
    for i := 0 to slot.numCsPins
      invariant csMask == CsMaskTo(slot, i)
    {
      if slot.cs.Cs1? && i == slot.cs.csIgnoreIndex { continue; }
      var g := (csBase + i) % 256;
      if g >= addrBase && g < (addrBase + slot.numAddrPins) % 256 {
        csMask := SetBit(csMask, g - addrBase);
      }
    }
  }

  // The select mask has exactly the span positions of the select pins that count.
  lemma {:induction false} CsMaskBit(slot: RomSlot, k: nat, pos: nat)
    ensures Bit(CsMaskTo(slot, k), pos)
       <==> exists i :: 0 <= i < k && CsInSpan(slot, i) && CsGpio(slot, i) == slot.AddrBase() + pos
  {
    if k == 0 {
      ZeroHasNoBits(pos);
    } else {
      CsMaskBit(slot, k - 1, pos);
      if CsInSpan(slot, k - 1) {
        SetBitBits(CsMaskTo(slot, k - 1), CsGpio(slot, k - 1) - slot.AddrBase(), pos);
      }
    }
  }

  method KnockMask(slot: RomSlot, knockBits: nat) returns (mask: nat)
    requires slot.Valid() && knockBits <= |AddrLines(slot)|
    ensures mask == MaskTo(AddrLines(slot), knockBits)
  {
    mask := 0;
    for i := 0 to knockBits
      invariant mask == MaskTo(AddrLines(slot), i)
    {
      var over := GetGpioOverride(slot, slot.addrPins[i]);
      if over == Normal || over == Invert {
        mask := SetBit(mask, Offset8(slot.addrPins[i], slot.AddrBase()));
      }
    }
  }

  method KnockMatch(slot: RomSlot, value: nat, knockBits: nat) returns (word: nat)
    requires slot.Valid() && knockBits <= |AddrLines(slot)|
    ensures word == MatchTo(AddrLines(slot), value, knockBits)
  {
    word := 0;
    for i := 0 to knockBits
      invariant word == MatchTo(AddrLines(slot), value, i)
    {
      var bitPos := Offset8(slot.addrPins[i], slot.AddrBase());
      var over := GetGpioOverride(slot, slot.addrPins[i]);
      match over {
        case Normal => if Bit(value, i) { word := SetBit(word, bitPos); }
        case Invert => if !Bit(value, i) { word := SetBit(word, bitPos); }
        case _ =>
      }
    }
  }

  // What pio_init_knock leaves in its structure.
  predicate Initialised(slot: RomSlot, knockSeq: seq<nat>, knockBits: nat, dataSize: nat, knock: Knock)
    requires slot.Valid() && knockBits <= |AddrLines(slot)|
  {
    && knock.mask == MaskTo(AddrLines(slot), knockBits)
    && |knock.matches| == |knockSeq|
    && (forall k :: 0 <= k < |knockSeq| ==>
          knock.matches[k] == MatchTo(AddrLines(slot), knockSeq[k], knockBits))
    && knock.xMask == XMask(slot) && knock.csMask == CsMaskTo(slot, CsCount(slot))
    && knock.bits == knockBits && knock.dataSize == dataSize && knock.multiRomMode == slot.slotType.Multi?
  }

  method InitKnock(slot: RomSlot, knockSeq: seq<nat>, knockBits: nat, dataSize: nat) returns (result: InitResult)
    requires slot.Valid()
    ensures knockSeq == [] || knockBits == 0 || knockBits > MAX_ADDR_PINS <==> result == InvalidArg
    ensures result == InternalError <==>
      knockSeq != [] && |AddrLines(slot)| < knockBits <= MAX_ADDR_PINS
    ensures result.Ready? ==>
      knockBits <= |AddrLines(slot)| && Initialised(slot, knockSeq, knockBits, dataSize, result.knock)
  {
    if knockSeq == [] || knockBits == 0 || knockBits > MAX_ADDR_PINS { return InvalidArg; }
    for i := 0 to knockBits
      invariant i <= |AddrLines(slot)|
    {
      if slot.addrPins[i] >= GPIO_NONE { return InternalError; }
    }
    var mask := KnockMask(slot, knockBits);
    var matches: seq<nat> := [];
    for k := 0 to |knockSeq|
      invariant |matches| == k
      invariant forall j :: 0 <= j < k ==> matches[j] == MatchTo(AddrLines(slot), knockSeq[j], knockBits)
    {
      var word := KnockMatch(slot, knockSeq[k], knockBits);
      matches := matches + [word];
    }
    var csMask := KnockCsMask(slot);
    var xMask := 0;
    if slot.slotType == Multi {
      for i := 0 to |slot.xPins|
        invariant xMask == XMaskTo(slot, i)
      {
        if slot.xPins[i] < slot.numAddrPins { xMask := SetBit(xMask, slot.xPins[i]); }
      }
    }
    return Ready(Knock(mask, matches, xMask, csMask, knockBits, dataSize, slot.slotType == Multi));
  }

  lemma {:induction false} MaskBit(lines: seq<Line>, k: nat, pos: nat)
    requires k <= |lines|
    ensures Bit(MaskTo(lines, k), pos) <==> exists i :: 0 <= i < k && Free(lines[i]) && lines[i].pos == pos
  {
    if k == 0 {
      ZeroHasNoBits(pos);
    } else {
      MaskBit(lines, k - 1, pos);
      if Free(lines[k - 1]) { SetBitBits(MaskTo(lines, k - 1), lines[k - 1].pos, pos); }
    }
  }

  lemma {:induction false} MatchBit(lines: seq<Line>, value: nat, k: nat, pos: nat)
    requires k <= |lines|
    ensures Bit(MatchTo(lines, value, k), pos)
       <==> exists i :: 0 <= i < k && Free(lines[i]) && lines[i].pos == pos
                        && Level(lines[i].over, Bit(value, i))
  {
    if k == 0 {
      ZeroHasNoBits(pos);
    } else {
      MatchBit(lines, value, k - 1, pos);
      if Free(lines[k - 1]) { SetBitBits(MatchTo(lines, value, k - 1), lines[k - 1].pos, pos); }
    }
  }

  lemma {:induction false} MaskAndMatchBound(lines: seq<Line>, value: nat, k: nat, width: nat)
    requires k <= |lines| && Within(lines, width)
    ensures MaskTo(lines, k) < Pow2(width) && MatchTo(lines, value, k) < Pow2(width)
  {
    if k != 0 {
      MaskAndMatchBound(lines, value, k - 1, width);
      if Free(lines[k - 1]) {
        SetBitBound(MaskTo(lines, k - 1), lines[k - 1].pos, width);
        SetBitBound(MatchTo(lines, value, k - 1), lines[k - 1].pos, width);
      }
    }
  }

  lemma {:induction false} AndBelow(x: nat, y: nat)
    ensures And(x, y) <= y
    decreases x
  {
    if x != 0 { AndBelow(x / 2, y / 2); }
  }

  // Matching a captured word raw is matching it decoded: the masked word equals the match word
  // exactly when the decoded address agrees with the knock on every knocked line that is not
  // forced.
  lemma RawMatchIsDecodedMatch(slot: RomSlot, entry: nat, value: nat, bits: nat)
    requires bits <= |AddrLines(slot)| && Distinct(AddrLines(slot)) && Within(AddrLines(slot), 32)
    ensures And(entry, MaskTo(AddrLines(slot), bits)) == MatchTo(AddrLines(slot), value, bits)
       <==> forall i :: 0 <= i < bits && Free(AddrLines(slot)[i]) ==>
              (Bit(Gather(AddrLines(slot), entry), i) <==> Bit(value, i))
  {
    var lines := AddrLines(slot);
    var mask, want := MaskTo(lines, bits), MatchTo(lines, value, bits);
    if And(entry, mask) == want {
      forall i | 0 <= i < bits && Free(lines[i])
        ensures Bit(Gather(lines, entry), i) <==> Bit(value, i)
      {
        GatheredBit(lines, entry, |lines|, i);
        RawBits(lines, entry, value, bits, i);
      }
    } else if forall i :: 0 <= i < bits && Free(lines[i]) ==> (Bit(Gather(lines, entry), i) <==> Bit(value, i)) {
      forall i | 0 <= i < bits && Free(lines[i])
        ensures Bit(And(entry, mask), lines[i].pos) <==> Bit(want, lines[i].pos)
      {
        GatheredBit(lines, entry, |lines|, i);
        RawBits(lines, entry, value, bits, i);
      }
      forall pos | 0 <= pos < 32
        ensures Bit(And(entry, mask), pos) <==> Bit(want, pos)
      {
        AndBits(entry, mask, pos);
        MaskBit(lines, bits, pos);
        MatchBit(lines, value, bits, pos);
      }
      MaskAndMatchBound(lines, value, bits, 32);
      AndBelow(entry, mask);
      SameBits(And(entry, mask), want, 32);
    }
  }

  // At a free knocked line, the masked word carries the capture and the match word the knock.
  lemma RawBits(lines: seq<Line>, entry: nat, value: nat, bits: nat, i: nat)
    requires i < bits <= |lines| && Distinct(lines) && Free(lines[i])
    ensures Bit(And(entry, MaskTo(lines, bits)), lines[i].pos) <==> Bit(entry, lines[i].pos)
    ensures Bit(MatchTo(lines, value, bits), lines[i].pos) <==> Level(lines[i].over, Bit(value, i))
  {
    AndBits(entry, MaskTo(lines, bits), lines[i].pos);
    MaskBit(lines, bits, lines[i].pos);
    MatchBit(lines, value, bits, lines[i].pos);
  }

  // With no knocked line forced, that is equality of the low knock bits.
  lemma RawMatchIsAddressMatch(slot: RomSlot, entry: nat, value: nat, bits: nat)
    requires bits <= |AddrLines(slot)| && Distinct(AddrLines(slot)) && Within(AddrLines(slot), 32)
    requires Unforced(AddrLines(slot)[..bits])
    ensures And(entry, MaskTo(AddrLines(slot), bits)) == MatchTo(AddrLines(slot), value, bits)
       <==> Observed(slot, entry, false).logical % Pow2(bits) == value % Pow2(bits)
  {
    var lines := AddrLines(slot);
    var address := Gather(lines, entry);
    RawMatchIsDecodedMatch(slot, entry, value, bits);
    forall i | 0 <= i < bits
      ensures Free(lines[i])
      ensures Bit(address % Pow2(bits), i) <==> Bit(address, i)
      ensures Bit(value % Pow2(bits), i) <==> Bit(value, i)
    {
      assert lines[..bits][i] == lines[i];
      LowBits(address, bits, i);
      LowBits(value, bits, i);
    }
    if forall i :: 0 <= i < bits ==> (Bit(address, i) <==> Bit(value, i)) {
      SameBits(address % Pow2(bits), value % Pow2(bits), bits);
    }
  }

  lemma {:induction false} XMaskBit(slot: RomSlot, k: nat, pos: nat)
    requires k <= |slot.xPins|
    ensures Bit(XMaskTo(slot, k), pos)
       <==> exists i :: 0 <= i < k && slot.xPins[i] < slot.numAddrPins && slot.xPins[i] == pos
  {
    if k == 0 {
      ZeroHasNoBits(pos);
    } else {
      XMaskBit(slot, k - 1, pos);
      if slot.xPins[k - 1] < slot.numAddrPins {
        SetBitBits(XMaskTo(slot, k - 1), slot.xPins[k - 1], pos);
      }
    }
  }

  lemma {:induction false} XMaskBound(slot: RomSlot, k: nat)
    requires k <= |slot.xPins|
    ensures XMaskTo(slot, k) < Pow2(slot.numAddrPins)
  {
    if k != 0 {
      XMaskBound(slot, k - 1);
      if slot.xPins[k - 1] < slot.numAddrPins {
        SetBitBound(XMaskTo(slot, k - 1), slot.xPins[k - 1], slot.numAddrPins);
      }
    }
  }

  // The debounce filter drops exactly the captures made while an X pin of the span was active.
  lemma FilterDropsActiveX(slot: RomSlot, entry: nat)
    requires slot.slotType == Multi
    ensures And(entry, XMask(slot)) != 0
       <==> exists i :: 0 <= i < |slot.xPins| && slot.xPins[i] < slot.numAddrPins && Bit(entry, slot.xPins[i])
  {
    var n, w := |slot.xPins|, slot.numAddrPins;
    var word := And(entry, XMask(slot));
    XMaskBound(slot, n);
    AndBelow(entry, XMask(slot));
    forall pos: nat
      ensures Bit(word, pos) <==> Bit(entry, pos) && Bit(XMask(slot), pos)
      ensures Bit(XMask(slot), pos)
         <==> exists i :: 0 <= i < n && slot.xPins[i] < slot.numAddrPins && slot.xPins[i] == pos
      ensures !Bit(0, pos)
    {
      AndBits(entry, XMask(slot), pos);
      XMaskBit(slot, n, pos);
      ZeroHasNoBits(pos);
    }
    if !exists i :: 0 <= i < n && slot.xPins[i] < w && Bit(entry, slot.xPins[i]) {
      SameBits(word, 0, w);
    }
  }

  // ---------------------------------------------------------------------------------------------
  // What a knock in a stream of captures is
  // ---------------------------------------------------------------------------------------------

  predicate Filtered(knock: Knock, debounce: bool, entry: nat)
  {
    debounce && knock.xMask != 0 && And(entry, knock.xMask) != 0
  }

  // The captures from `from` up to `to` the filter leaves, in order.
  function Kept(stream: nat -> nat, knock: Knock, debounce: bool, from: nat, to: nat): (kept: seq<nat>)
    requires from <= to
    ensures |kept| <= to - from
  {
    if from == to then []
    else
      var kept := Kept(stream, knock, debounce, from, to - 1);
      if Filtered(knock, debounce, stream(to - 1)) then kept else kept + [stream(to - 1)]
  }

  function Masked(entries: seq<nat>, mask: nat): (masked: seq<nat>)
    ensures |masked| == |entries|
    ensures forall i :: 0 <= i < |entries| ==> masked[i] == And(entries[i], mask)
  {
    seq(|entries|, i requires 0 <= i < |entries| => And(entries[i], mask))
  }

  // The last j of the words are the first j of the knock.
  predicate EndsWith(words: seq<nat>, matches: seq<nat>, j: nat)
  {
    j <= |words| && j <= |matches| && words[|words| - j..] == matches[..j]
  }

  // The first j entries of the knock, but for the last of them, are also the j - 1 that come before
  // entry p.
  predicate Overlaps(matches: seq<nat>, j: nat, p: nat)
  {
    1 <= j <= p < |matches| && matches[..j - 1] == matches[p - j + 1..p]
  }

  // Wherever two stretches of the knock overlap, both go on with the same entry, or one of them is at
  // its start: then a mismatch leaves no more in progress than its one word.
  predicate Resumes(matches: seq<nat>) { forall p :: 0 <= p < |matches| ==> ResumesAt(matches, p) }

  predicate ResumesAt(matches: seq<nat>, p: nat)
    requires p < |matches|
  {
    forall j :: 2 <= j <= p && Overlaps(matches, j, p) ==> matches[j - 1] == matches[p]
  }

  // So it is where the first entry does not recur.
  lemma FreshFirstResumes(matches: seq<nat>)
    requires forall i :: 1 <= i < |matches| ==> matches[i] != matches[0]
    ensures Resumes(matches)
  {
    forall p, j | 0 <= p < |matches| && 2 <= j <= p
      ensures !Overlaps(matches, j, p)
    {
      assert matches[..j - 1][0] == matches[0] && matches[p - j + 1..p][0] == matches[p - j + 1];
    }
  }

  // No longer stretch of the knock is in progress than the detector holds.
  ghost predicate Longest(words: seq<nat>, matches: seq<nat>, pos: nat)
  {
    forall j :: pos < j ==> !EndsWith(words, matches, j)
  }

  function NextPos(matches: seq<nat>, pos: nat, word: nat): nat
    requires pos < |matches|
  {
    if word == matches[pos] then pos + 1 else if word == matches[0] then 1 else 0
  }

  lemma StepEndsWith(words: seq<nat>, matches: seq<nat>, pos: nat, word: nat)
    requires pos < |matches| && EndsWith(words, matches, pos)
    ensures EndsWith(words + [word], matches, NextPos(matches, pos, word))
  {
    var next, longer := NextPos(matches, pos, word), words + [word];
    if next == pos + 1 {
      assert longer[|longer| - next..] == words[|words| - pos..] + [word] == matches[..next];
    } else if next == 1 {
      assert longer[|longer| - 1..] == [word] == matches[..1];
    } else {
      assert longer[|longer|..] == [] == matches[..0];
    }
  }

  // Two stretches in progress at once overlap in the knock.
  lemma BothInProgress(words: seq<nat>, matches: seq<nat>, long: nat, short: nat)
    requires EndsWith(words, matches, long) && EndsWith(words, matches, short) && short < long < |matches|
    ensures Overlaps(matches, short + 1, long)
  {
    var tail := words[|words| - long..];
    assert tail[long - short..] == words[|words| - short..] == matches[..short];
    assert matches[..long][long - short..] == matches[long - short..long];
  }

  lemma StepLongest(words: seq<nat>, matches: seq<nat>, pos: nat, word: nat)
    requires pos < |matches| && EndsWith(words, matches, pos) && Longest(words, matches, pos)
    requires Resumes(matches)
    ensures Longest(words + [word], matches, NextPos(matches, pos, word))
  {
    var longer := words + [word];
    forall j: nat | NextPos(matches, pos, word) < j
      ensures !EndsWith(longer, matches, j)
    {
      if EndsWith(longer, matches, j) {
        StretchBefore(words, matches, word, j);
        assert ResumesAt(matches, pos);
        if 2 <= j <= pos { BothInProgress(words, matches, pos, j - 1); }
        assert false;
      }
    }
  }

  // A stretch in progress after a word was one entry shorter before it.
  lemma StretchBefore(words: seq<nat>, matches: seq<nat>, word: nat, j: nat)
    requires j > 0 && EndsWith(words + [word], matches, j)
    ensures j <= |matches| && word == matches[j - 1] && EndsWith(words, matches, j - 1)
  {
    var tail := (words + [word])[|words| + 1 - j..];
    assert tail[j - 1] == word == matches[..j][j - 1];
    assert words[|words| - (j - 1)..] == tail[..j - 1] == matches[..j][..j - 1] == matches[..j - 1];
  }

  // ---------------------------------------------------------------------------------------------
  // Which knocks can be missed
  // ---------------------------------------------------------------------------------------------

  // The matcher's position after some words.
  function Reached(matches: seq<nat>, words: seq<nat>): (pos: nat)
    ensures pos <= |matches|
    decreases |words|
  {
    if words == [] then 0
    else
      var before := Reached(matches, words[..|words| - 1]);
      if before < |matches| then NextPos(matches, before, words[|words| - 1]) else before
  }

  lemma ReachedMore(matches: seq<nat>, words: seq<nat>, word: nat)
    ensures Reached(matches, words + [word])
         == if Reached(matches, words) < |matches| then NextPos(matches, Reached(matches, words), word)
            else Reached(matches, words)
  {
    assert (words + [word])[..|words|] == words;
  }

  // Some of the words, from the first on, end with the whole knock.
  predicate Knocked(matches: seq<nat>, words: seq<nat>)
  {
    exists e :: 0 <= e <= |words| && EndsWith(words[..e], matches, |matches|)
  }

  // The matcher has finished, for any words, exactly when they have held the knock.
  ghost predicate NeverMissed(matches: seq<nat>)
  {
    forall words :: Reached(matches, words) == |matches| <==> Knocked(matches, words)
  }

  lemma KnockedMore(matches: seq<nat>, words: seq<nat>, word: nat)
    ensures Knocked(matches, words + [word])
       <==> Knocked(matches, words) || EndsWith(words + [word], matches, |matches|)
  {
    var longer := words + [word];
    assert longer[..|longer|] == longer;
    forall e | 0 <= e <= |words|
      ensures longer[..e] == words[..e]
    {
    }
  }

  // Until it finishes, the words end with as much of the knock as the matcher's position.
  lemma {:induction false} ReachedEnds(matches: seq<nat>, words: seq<nat>)
    ensures Reached(matches, words) < |matches| ==> EndsWith(words, matches, Reached(matches, words))
    decreases |words|
  {
    if words == [] {
      assert words[|words|..] == matches[..0];
    } else {
      var before, word := words[..|words| - 1], words[|words| - 1];
      assert words == before + [word];
      ReachedEnds(matches, before);
      if Reached(matches, before) < |matches| {
        StepEndsWith(before, matches, Reached(matches, before), word);
      }
    }
  }

  lemma {:induction false} ReachedTracks(matches: seq<nat>, words: seq<nat>)
    requires matches != [] && Resumes(matches)
    ensures Reached(matches, words) < |matches| ==> Longest(words, matches, Reached(matches, words))
    ensures Reached(matches, words) == |matches| <==> Knocked(matches, words)
    decreases |words|
  {
    if words == [] {
      assert words[..0] == [] && !EndsWith([], matches, |matches|);
    } else {
      var before, word := words[..|words| - 1], words[|words| - 1];
      assert words == before + [word];
      ReachedTracks(matches, before);
      KnockedMore(matches, before, word);
      if Reached(matches, before) < |matches| {
        ReachedEnds(matches, before);
        StepEndsWith(before, matches, Reached(matches, before), word);
        StepLongest(before, matches, Reached(matches, before), word);
      }
    }
  }

  // The knock itself takes the matcher from its start to its end.
  lemma {:induction false} KnockReaches(matches: seq<nat>, p: nat)
    requires p <= |matches|
    ensures Reached(matches, matches[..p]) == p
  {
    if p > 0 {
      assert matches[..p][..p - 1] == matches[..p - 1];
      KnockReaches(matches, p - 1);
    }
  }

  // A word takes it one entry on at most.
  lemma {:induction false} ReachesSlowly(matches: seq<nat>, words: seq<nat>, more: seq<nat>)
    ensures Reached(matches, words + more) <= Reached(matches, words) + |more|
    decreases |more|
  {
    if more == [] {
      assert words + more == words;
    } else {
      assert (words + more)[..|words + more| - 1] == words + more[..|more| - 1];
      ReachesSlowly(matches, words, more[..|more| - 1]);
    }
  }

  // The words that go from one stretch over to another that overlaps it hold the knock.
  lemma OverlapHolds(matches: seq<nat>, j: nat, p: nat)
    requires 2 <= j && Overlaps(matches, j, p)
    ensures Knocked(matches, matches[..p] + matches[j - 1..])
  {
    var words, rest := matches[..p] + matches[j - 1..], matches[j - 1..];
    assert |words| - |matches| == p - j + 1;
    assert words[p - j + 1..] == matches[p - j + 1..p] + rest;
    assert matches[..j - 1] + rest == matches && matches[..|matches|] == matches;
    assert words[..|words|] == words;
    assert EndsWith(words, matches, |matches|);
  }

  // Where the two then differ, the matcher falls back to the first entry at most, and has too few
  // words left.
  lemma OverlapFallsBack(matches: seq<nat>, j: nat, p: nat)
    requires 2 <= j <= p < |matches| && matches[j - 1] != matches[p]
    ensures Reached(matches, matches[..p] + matches[j - 1..]) < |matches|
  {
    var first, rest := matches[..p] + [matches[j - 1]], matches[j..];
    KnockReaches(matches, p);
    assert first[..|first| - 1] == matches[..p];
    assert Reached(matches, first) <= 1;
    ReachesSlowly(matches, first, rest);
    assert matches[..p] + matches[j - 1..] == first + rest;
  }

  lemma OverlapIsMissed(matches: seq<nat>, j: nat, p: nat)
    requires 2 <= j && Overlaps(matches, j, p) && matches[j - 1] != matches[p]
    ensures var words := matches[..p] + matches[j - 1..];
      Knocked(matches, words) && Reached(matches, words) < |matches|
  {
    OverlapHolds(matches, j, p);
    OverlapFallsBack(matches, j, p);
  }

  // So no knock is missed, whatever is heard, exactly where no two stretches of it overlap and then
  // differ.
  lemma NeverMissedIffResumes(matches: seq<nat>)
    requires matches != []
    ensures NeverMissed(matches) <==> Resumes(matches)
  {
    if Resumes(matches) {
      forall words
        ensures Reached(matches, words) == |matches| <==> Knocked(matches, words)
      {
        ReachedTracks(matches, words);
      }
    } else {
      var p :| 0 <= p < |matches| && !ResumesAt(matches, p);
      var j :| 2 <= j <= p && Overlaps(matches, j, p) && matches[j - 1] != matches[p];
      OverlapIsMissed(matches, j, p);
    }
  }

  // The knock a, a, b is missed in a, a, a, b.
  lemma MissedKnock(a: nat, b: nat)
    requires a != b
    ensures Knocked([a, a, b], [a, a, a, b]) && Reached([a, a, b], [a, a, a, b]) < 3
  {
    var matches := [a, a, b];
    assert matches[..1] == matches[1..2];
    assert Overlaps(matches, 2, 2);
    OverlapIsMissed(matches, 2, 2);
    assert matches[..2] + matches[1..] == [a, a, a, b];
  }

  // ---------------------------------------------------------------------------------------------
  // The capture ring
  // ---------------------------------------------------------------------------------------------

  lemma SameSlot(a: nat, b: nat, n: nat)
    requires n > 0 && a <= b < a + n
    ensures a % n == b % n <==> a == b
  {
    if a % n == b % n {
      var d := b / n - a / n;
      assert b - a == n * d;
      MulAtLeast(n, d);
    }
  }

  lemma NextSlot(a: nat, n: nat)
    requires n > 0
    ensures (a + 1) % n == if a % n + 1 >= n then 0 else a % n + 1
  {
    if a % n + 1 >= n {
      assert a + 1 == n * (a / n + 1);
      ModIs(a + 1, n, a / n + 1, 0);
    } else {
      ModIs(a + 1, n, a / n, a % n + 1);
    }
  }

  // The DMA's ring: capture k of the stream goes to entry k % size.
  class CaptureRing {
    const stream: nat -> nat
    const entries: array<nat>
    var captured: nat
    var writePos: nat

    ghost predicate Valid()
      reads this, entries
    {
      && entries.Length > 0 && writePos == captured % entries.Length
      && forall k :: captured - entries.Length <= k < captured && k >= 0 ==>
           entries[k % entries.Length] == stream(k)
    }

    constructor (stream: nat -> nat, size: nat)
      requires size > 0
      ensures Valid() && captured == 0 && this.stream == stream && entries.Length == size
      ensures fresh(entries)
    {
      this.stream := stream;
      entries := new nat[size];
      captured, writePos := 0, 0;
    }

    // The DMA stores any number of captures, short of lapping an entry not yet read.
    method Capture(unread: nat)
      requires Valid() && unread <= captured < unread + entries.Length
      modifies this, entries
      ensures Valid() && old(captured) <= captured < unread + entries.Length
    {
      var more: nat :| 0 <= more && captured + more < unread + entries.Length;
      while more > 0
        invariant Valid() && old(captured) <= captured && captured + more < unread + entries.Length
        decreases more
      {
        ghost var was := entries[..];
        entries[writePos] := stream(captured);
        forall k | captured + 1 - entries.Length <= k < captured && k >= 0
          ensures entries[k % entries.Length] == stream(k)
        {
          SameSlot(k, captured, entries.Length);
        }
        NextSlot(captured, entries.Length);
        writePos := if writePos + 1 >= entries.Length then 0 else writePos + 1;
        captured := captured + 1;
        more := more - 1;
      }
    }
  }

  // ---------------------------------------------------------------------------------------------
  // pio_wait_for_knock
  // ---------------------------------------------------------------------------------------------

  // What the kept captures from `from` to `to` look like to the matcher.
  function Heard(ring: CaptureRing, knock: Knock, debounce: bool, from: nat, to: nat): seq<nat>
    requires from <= to
  {
    Masked(Kept(ring.stream, knock, debounce, from, to), knock.mask)
  }

  // No prefix shorter than n ends with the whole knock.
  ghost predicate NotYet(words: seq<nat>, matches: seq<nat>, n: nat)
  {
    forall e :: 0 <= e < n && e <= |words| ==> !EndsWith(words[..e], matches, |matches|)
  }

  function Advanced(knock: Knock, debounce: bool, pos: nat, entry: nat): nat
    requires pos < |knock.matches|
  {
    if Filtered(knock, debounce, entry) then pos
    else NextPos(knock.matches, pos, And(entry, knock.mask))
  }

  method MatchEntry(knock: Knock, debounce: bool, entry: nat, startPos: nat) returns (pos: nat)
    requires startPos < |knock.matches|
    ensures pos == Advanced(knock, debounce, startPos, entry) <= |knock.matches|
  {
    pos := startPos;
    if debounce && knock.xMask != 0 && And(entry, knock.xMask) != 0 { return; }
    if And(entry, knock.mask) == knock.matches[pos] {
      pos := pos + 1;
    } else {
      pos := if And(entry, knock.mask) == knock.matches[0] then 1 else 0;
    }
  }

  // The matcher's position after the captures up to `to`, having been at `pos` before `from`.
  function Progress(stream: nat -> nat, knock: Knock, debounce: bool, pos: nat, from: nat, to: nat): nat
    requires from <= to
  {
    if from == to then pos
    else
      var before := Progress(stream, knock, debounce, pos, from, to - 1);
      if before < |knock.matches| then Advanced(knock, debounce, before, stream(to - 1)) else before
  }

  lemma {:induction false} ProgressJoins(stream: nat -> nat, knock: Knock, debounce: bool, pos: nat, from: nat,
                                         mid: nat, to: nat)
    requires from <= mid <= to
    ensures Progress(stream, knock, debounce, pos, from, to)
         == Progress(stream, knock, debounce, Progress(stream, knock, debounce, pos, from, mid), mid, to)
  {
    if mid < to { ProgressJoins(stream, knock, debounce, pos, from, mid, to - 1); }
  }

  // One capture takes the matcher on as its word does, if the filter leaves it.
  lemma AdvanceReaches(knock: Knock, debounce: bool, words: seq<nat>, entry: nat, heard: seq<nat>)
    requires heard == if Filtered(knock, debounce, entry) then words else words + [And(entry, knock.mask)]
    ensures Reached(knock.matches, heard)
         == if Reached(knock.matches, words) < |knock.matches|
            then Advanced(knock, debounce, Reached(knock.matches, words), entry) else Reached(knock.matches, words)
  {
    ReachedMore(knock.matches, words, And(entry, knock.mask));
  }

  // The matcher's position is the one it reaches on the words it hears.
  predicate Agrees(ring: CaptureRing, knock: Knock, debounce: bool, from: nat, to: nat)
    requires from <= to
  {
    Progress(ring.stream, knock, debounce, 0, from, to)
    == Reached(knock.matches, Heard(ring, knock, debounce, from, to))
  }

  lemma AgreesAtStart(ring: CaptureRing, knock: Knock, debounce: bool, from: nat)
    ensures Agrees(ring, knock, debounce, from, from)
  {
    assert Heard(ring, knock, debounce, from, from) == [];
  }

  lemma AgreesNext(ring: CaptureRing, knock: Knock, debounce: bool, from: nat, to: nat)
    requires from <= to && Agrees(ring, knock, debounce, from, to)
    ensures Agrees(ring, knock, debounce, from, to + 1)
  {
    HeardOneMore(ring, knock, debounce, from, to);
    AdvanceReaches(knock, debounce, Heard(ring, knock, debounce, from, to), ring.stream(to),
                   Heard(ring, knock, debounce, from, to + 1));
  }

  lemma {:induction false} ProgressIsReached(ring: CaptureRing, knock: Knock, debounce: bool, from: nat, to: nat)
    requires from <= to
    ensures Agrees(ring, knock, debounce, from, to)
  {
    if from == to {
      AgreesAtStart(ring, knock, debounce, from);
    } else {
      ProgressIsReached(ring, knock, debounce, from, to - 1);
      AgreesNext(ring, knock, debounce, from, to - 1);
    }
  }

  lemma HeardOneMore(ring: CaptureRing, knock: Knock, debounce: bool, from: nat, to: nat)
    requires from <= to
    ensures Heard(ring, knock, debounce, from, to + 1)
         == if Filtered(knock, debounce, ring.stream(to)) then Heard(ring, knock, debounce, from, to)
            else Heard(ring, knock, debounce, from, to) + [And(ring.stream(to), knock.mask)]
  {
  }

  // The matcher, begun at `from`, finishes at capture `to` and not before.
  ghost predicate FirstHeardAt(ring: CaptureRing, knock: Knock, debounce: bool, from: nat, to: nat)
  {
    && from < to && Progress(ring.stream, knock, debounce, 0, from, to) == |knock.matches|
    && Progress(ring.stream, knock, debounce, 0, from, to - 1) < |knock.matches|
  }

  // Where the reader and the ring stand: capture `at` is the next to read, at entry readPos, and
  // nothing from it on has been lapped.
  ghost predicate Reading(ring: CaptureRing, at: nat, readPos: nat)
    reads ring, ring.entries
  {
    ring.Valid() && at <= ring.captured < at + ring.entries.Length && readPos == at % ring.entries.Length
  }

  // Reads one capture, while the DMA goes on storing more.
  method TakeEntry(ring: CaptureRing, at: nat, readPos: nat) returns (entry: nat, next: nat)
    requires Reading(ring, at, readPos) && at < ring.captured
    modifies ring, ring.entries
    ensures Reading(ring, at + 1, next) && ring.captured >= old(ring.captured)
    ensures entry == ring.stream(at)
  {
    ring.Capture(at);
    entry := ring.entries[readPos];
    NextSlot(at, ring.entries.Length);
    next := if readPos + 1 >= ring.entries.Length then 0 else readPos + 1;
  }

  // The matcher is at `pos` after the captures up to `at`, and had not finished before the last.
  ghost predicate Stepped(ring: CaptureRing, knock: Knock, debounce: bool, startPos: nat, start: nat,
                          at: nat, pos: nat)
  {
    && start <= at && pos == Progress(ring.stream, knock, debounce, startPos, start, at) <= |knock.matches|
    && (start < at ==> Progress(ring.stream, knock, debounce, startPos, start, at - 1) < |knock.matches|)
  }

  lemma StepsOn(ring: CaptureRing, knock: Knock, debounce: bool, startPos: nat, start: nat, at: nat, pos: nat)
    requires Stepped(ring, knock, debounce, startPos, start, at, pos) && pos < |knock.matches|
    ensures Stepped(ring, knock, debounce, startPos, start, at + 1, Advanced(knock, debounce, pos, ring.stream(at)))
  {
  }

  // Matches what the ring held when it was looked at.
  method DetectInBatch(ring: CaptureRing, knock: Knock, debounce: bool, reader: nat, start: nat,
                       startPos: nat)
    returns (pos: nat, readPos: nat, at: nat)
    requires Reading(ring, start, reader) && startPos < |knock.matches|
    modifies ring, ring.entries
    ensures Reading(ring, at, readPos) && ring.captured >= old(ring.captured)
    ensures Stepped(ring, knock, debounce, startPos, start, at, pos)
    ensures pos < |knock.matches| ==> at == old(ring.captured)
  {
    pos, readPos, at := startPos, reader, start;
    var writePos := ring.writePos;
    ghost var end := ring.captured;
    while readPos != writePos && pos < |knock.matches|
      invariant Reading(ring, at, readPos) && at <= end <= ring.captured
      invariant writePos == end % ring.entries.Length
      invariant Stepped(ring, knock, debounce, startPos, start, at, pos)
      decreases end - at
    {
      var entry: nat;
      entry, readPos := TakeEntry(ring, at, readPos);
      StepsOn(ring, knock, debounce, startPos, start, at, pos);
      at := at + 1;
      pos := MatchEntry(knock, debounce, entry, pos);
    }
    SameSlot(at, end, ring.entries.Length);
  }

  // The matcher is at `pos` after the captures from `from` up to `at`.
  ghost predicate Detecting(ring: CaptureRing, knock: Knock, debounce: bool, from: nat, at: nat, pos: nat)
  {
    && from <= at && pos == Progress(ring.stream, knock, debounce, 0, from, at) <= |knock.matches|
    && (pos == |knock.matches| ==> FirstHeardAt(ring, knock, debounce, from, at))
  }

  lemma BatchDetects(ring: CaptureRing, knock: Knock, debounce: bool, from: nat, start: nat, startPos: nat,
                     at: nat, pos: nat)
    requires Detecting(ring, knock, debounce, from, start, startPos) && startPos < |knock.matches|
    requires Stepped(ring, knock, debounce, startPos, start, at, pos)
    ensures Detecting(ring, knock, debounce, from, at, pos)
  {
    ProgressJoins(ring.stream, knock, debounce, 0, from, start, at);
    if start < at { ProgressJoins(ring.stream, knock, debounce, 0, from, start, at - 1); }
  }

  // What the matcher's position says of the words, where it has not finished, and where it just has.
  lemma OpenSays(matches: seq<nat>, words: seq<nat>)
    requires matches != [] && Reached(matches, words) < |matches|
    ensures EndsWith(words, matches, Reached(matches, words))
    ensures Resumes(matches) ==> NotYet(words, matches, |words| + 1)
  {
    ReachedEnds(matches, words);
    if Resumes(matches) { ReachedTracks(matches, words); }
  }

  lemma FinishedSays(knock: Knock, debounce: bool, words: seq<nat>, entry: nat, heard: seq<nat>)
    requires heard == if Filtered(knock, debounce, entry) then words else words + [And(entry, knock.mask)]
    requires knock.matches != []
    requires Reached(knock.matches, words) < |knock.matches| == Reached(knock.matches, heard)
    ensures EndsWith(heard, knock.matches, |knock.matches|)
    ensures Resumes(knock.matches) ==> NotYet(heard, knock.matches, |heard|)
  {
    JustFinished(knock.matches, words, And(entry, knock.mask));
  }

  lemma OpenTracks(ring: CaptureRing, knock: Knock, debounce: bool, from: nat, at: nat)
    requires from <= at && knock.matches != []
    requires Progress(ring.stream, knock, debounce, 0, from, at) < |knock.matches|
    ensures Resumes(knock.matches) ==>
              var words := Heard(ring, knock, debounce, from, at); NotYet(words, knock.matches, |words| + 1)
  {
    ProgressIsReached(ring, knock, debounce, from, at);
    OpenSays(knock.matches, Heard(ring, knock, debounce, from, at));
  }

  lemma FinishedTracks(ring: CaptureRing, knock: Knock, debounce: bool, from: nat, at: nat)
    requires FirstHeardAt(ring, knock, debounce, from, at + 1) && knock.matches != []
    ensures EndsWith(Heard(ring, knock, debounce, from, at + 1), knock.matches, |knock.matches|)
    ensures Resumes(knock.matches) ==>
              var words := Heard(ring, knock, debounce, from, at + 1); NotYet(words, knock.matches, |words|)
  {
    var before, words := Heard(ring, knock, debounce, from, at), Heard(ring, knock, debounce, from, at + 1);
    ProgressIsReached(ring, knock, debounce, from, at);
    ProgressIsReached(ring, knock, debounce, from, at + 1);
    HeardOneMore(ring, knock, debounce, from, at);
    FinishedSays(knock, debounce, before, ring.stream(at), words);
  }

  // The matcher finishes on this word.
  lemma JustFinished(matches: seq<nat>, words: seq<nat>, word: nat)
    requires matches != [] && Reached(matches, words) < |matches| == Reached(matches, words + [word])
    ensures EndsWith(words + [word], matches, |matches|)
    ensures Resumes(matches) ==> NotYet(words + [word], matches, |words| + 1)
  {
    ReachedMore(matches, words, word);
    ReachedEnds(matches, words);
    StepEndsWith(words, matches, Reached(matches, words), word);
    if Resumes(matches) {
      ReachedTracks(matches, words);
      NotYetBefore(matches, words, word);
    }
  }

  lemma NotYetBefore(matches: seq<nat>, words: seq<nat>, word: nat)
    requires !Knocked(matches, words)
    ensures NotYet(words + [word], matches, |words| + 1)
  {
    forall e | 0 <= e <= |words|
      ensures !EndsWith((words + [word])[..e], matches, |matches|)
    {
      assert (words + [word])[..e] == words[..e];
    }
  }

  // The detector, polled `looks` times, from capture `from` on.
  method DetectKnock(ring: CaptureRing, knock: Knock, debounce: bool, reader: nat, looks: nat,
                     from: nat)
    returns (heard: bool, readPos: nat, at: nat)
    requires Reading(ring, from, reader) && |knock.matches| > 0
    modifies ring, ring.entries
    ensures Reading(ring, at, readPos) && from <= at
    ensures var words := Heard(ring, knock, debounce, from, at);
      && (heard ==> EndsWith(words, knock.matches, |knock.matches|))
      && (Resumes(knock.matches) ==>
            NotYet(words, knock.matches, if heard then |words| else |words| + 1))
    ensures ring.captured >= old(ring.captured) && (!heard && looks > 0 ==> at >= old(ring.captured))
    ensures heard ==> FirstHeardAt(ring, knock, debounce, from, at)
    ensures !heard ==> Progress(ring.stream, knock, debounce, 0, from, at) < |knock.matches|
  {
    var pos: nat := 0;
    readPos, at := reader, from;
    var left := looks;
    while pos < |knock.matches| && left > 0
      invariant Reading(ring, at, readPos) && ring.captured >= old(ring.captured)
      invariant Detecting(ring, knock, debounce, from, at, pos)
      invariant pos < |knock.matches| && left < looks ==> at >= old(ring.captured)
      decreases left
    {
      ring.Capture(at);
      ghost var start, startPos := at, pos;
      pos, readPos, at := DetectInBatch(ring, knock, debounce, readPos, at, pos);
      BatchDetects(ring, knock, debounce, from, start, startPos, at, pos);
      left := left - 1;
    }
    heard := pos == |knock.matches|;
    if heard {
      FinishedTracks(ring, knock, debounce, from, at - 1);
    } else {
      OpenTracks(ring, knock, debounce, from, at);
    }
  }

  // Collects what the ring held when it was looked at.
  method CollectBatch(ring: CaptureRing, knock: Knock, debounce: bool, reader: nat, from: nat,
                      start: nat, payload: array<nat>, payloadLen: nat, startPos: nat)
    returns (pos: nat, readPos: nat, at: nat)
    requires Reading(ring, start, reader) && from <= start
    requires startPos < payloadLen <= payload.Length && payload != ring.entries
    requires payload[..startPos] == Kept(ring.stream, knock, debounce, from, start)
    modifies ring, ring.entries, payload
    ensures Reading(ring, at, readPos) && start <= at && startPos <= pos <= payloadLen
    ensures payload[..pos] == Kept(ring.stream, knock, debounce, from, at)
    ensures ring.captured >= old(ring.captured) && (pos < payloadLen ==> at == old(ring.captured))
  {
    pos, readPos, at := startPos, reader, start;
    var writePos := ring.writePos;
    ghost var end := ring.captured;
    while readPos != writePos && pos < payloadLen
      invariant Reading(ring, at, readPos) && start <= at <= end <= ring.captured
      invariant writePos == end % ring.entries.Length
      invariant startPos <= pos <= payloadLen
      invariant payload[..pos] == Kept(ring.stream, knock, debounce, from, at)
      decreases end - at
    {
      var entry: nat;
      entry, readPos := TakeEntry(ring, at, readPos);
      at := at + 1;
      if debounce && knock.xMask != 0 && And(entry, knock.xMask) != 0 { continue; }
      payload[pos] := entry;
      pos := pos + 1;
      assert payload[..pos] == payload[..pos - 1] + [entry];
    }
    SameSlot(at, end, ring.entries.Length);
  }

  // Fills the payload with the next kept captures.
  method CollectPayload(ring: CaptureRing, knock: Knock, debounce: bool, reader: nat, looks: nat,
                        payload: array<nat>, payloadLen: nat, from: nat)
    returns (full: bool, readPos: nat, at: nat)
    requires Reading(ring, from, reader)
    requires payloadLen <= payload.Length && payload != ring.entries
    modifies ring, ring.entries, payload
    ensures Reading(ring, at, readPos) && from <= at
    ensures full ==> payload[..payloadLen] == Kept(ring.stream, knock, debounce, from, at)
    ensures !full ==> |Kept(ring.stream, knock, debounce, from, at)| < payloadLen
    ensures ring.captured >= old(ring.captured) && (!full && looks > 0 ==> at >= old(ring.captured))
  {
    var pos: nat := 0;
    readPos, at := reader, from;
    var left := looks;
    while pos < payloadLen && left > 0
      invariant Reading(ring, at, readPos) && from <= at && pos <= payloadLen
      invariant payload[..pos] == Kept(ring.stream, knock, debounce, from, at)
      invariant ring.captured >= old(ring.captured)
      invariant pos < payloadLen && left < looks ==> at >= old(ring.captured)
      decreases left
    {
      ring.Capture(at);
      pos, readPos, at := CollectBatch(ring, knock, debounce, readPos, from, at, payload, payloadLen, pos);
      left := left - 1;
    }
    full := pos == payloadLen;
  }

  lemma {:induction false} KeptJoins(stream: nat -> nat, knock: Knock, debounce: bool, from: nat, mid: nat, to: nat)
    requires from <= mid <= to
    ensures Kept(stream, knock, debounce, from, to)
         == Kept(stream, knock, debounce, from, mid) + Kept(stream, knock, debounce, mid, to)
  {
    if mid < to { KeptJoins(stream, knock, debounce, from, mid, to - 1); }
  }

  // A wait that goes on: the knock is not heard yet, or too few are kept after it.
  ghost predicate StillWaits(ring: CaptureRing, knock: Knock, debounce: bool, from: nat, knockEnd: nat,
                             payloadEnd: nat, count: nat)
  {
    && from <= knockEnd <= payloadEnd
    && (|| Progress(ring.stream, knock, debounce, 0, from, payloadEnd) < |knock.matches|
        || (FirstHeardAt(ring, knock, debounce, from, knockEnd)
            && |Kept(ring.stream, knock, debounce, knockEnd, payloadEnd)| < count))
  }

  // The captures up to `to` hold the knock, and then at least `count` more that are kept.
  ghost predicate HoldsKnock(ring: CaptureRing, knock: Knock, debounce: bool, from: nat, to: nat, count: nat)
  {
    exists e :: from <= e <= to && KnockThen(ring, knock, debounce, from, e, to, count)
  }

  ghost predicate KnockThen(ring: CaptureRing, knock: Knock, debounce: bool, from: nat, e: nat, to: nat, count: nat)
    requires from <= e <= to
  {
    && EndsWith(Heard(ring, knock, debounce, from, e), knock.matches, |knock.matches|)
    && |Kept(ring.stream, knock, debounce, e, to)| >= count
  }

  lemma HeardPrefix(ring: CaptureRing, knock: Knock, debounce: bool, from: nat, e: nat, at: nat)
    requires from <= e <= at
    ensures var words, part := Heard(ring, knock, debounce, from, at), Heard(ring, knock, debounce, from, e);
      |part| <= |words| && words[..|part|] == part
  {
    KeptJoins(ring.stream, knock, debounce, from, e, at);
  }

  // Captures in which the matcher has not finished hold no knock.
  lemma UnheardHoldsNone(ring: CaptureRing, knock: Knock, debounce: bool, from: nat, e: nat, at: nat)
    requires from <= e <= at && Resumes(knock.matches)
    requires Progress(ring.stream, knock, debounce, 0, from, at) < |knock.matches|
    ensures !EndsWith(Heard(ring, knock, debounce, from, e), knock.matches, |knock.matches|)
  {
    ProgressIsReached(ring, knock, debounce, from, at);
    ReachedTracks(knock.matches, Heard(ring, knock, debounce, from, at));
    HeardPrefix(ring, knock, debounce, from, e, at);
  }

  // Nor do those before the one it finished at.
  lemma NoneBeforeFirst(ring: CaptureRing, knock: Knock, debounce: bool, from: nat, first: nat, e: nat)
    requires FirstHeardAt(ring, knock, debounce, from, first) && Resumes(knock.matches)
    requires from <= e && EndsWith(Heard(ring, knock, debounce, from, e), knock.matches, |knock.matches|)
    ensures first <= e
  {
    if e < first { UnheardHoldsNone(ring, knock, debounce, from, e, first - 1); }
  }

  // So a wait that goes on has had no knock with enough after it.
  lemma WaitingHoldsNone(ring: CaptureRing, knock: Knock, debounce: bool, from: nat, knockEnd: nat, payloadEnd: nat,
                         to: nat, count: nat)
    requires StillWaits(ring, knock, debounce, from, knockEnd, payloadEnd, count) && Resumes(knock.matches)
    requires from <= to <= payloadEnd
    ensures !HoldsKnock(ring, knock, debounce, from, to, count)
  {
    forall e | from <= e <= to
      ensures !KnockThen(ring, knock, debounce, from, e, to, count)
    {
      if Progress(ring.stream, knock, debounce, 0, from, payloadEnd) < |knock.matches| {
        UnheardHoldsNone(ring, knock, debounce, from, e, payloadEnd);
      } else if KnockThen(ring, knock, debounce, from, e, to, count) {
        NoneBeforeFirst(ring, knock, debounce, from, knockEnd, e);
        KeptJoins(ring.stream, knock, debounce, knockEnd, e, payloadEnd);
        KeptJoins(ring.stream, knock, debounce, e, to, payloadEnd);
      }
    }
  }

  datatype WaitResult = Invalid | Waiting | Done(nextRead: nat)

  // The whole wait, from the current write position or from startPos.  Waiting means that the
  // looks ran out first: the firmware would go on polling.
  method WaitForKnock(ring: CaptureRing, knock: Knock, debounce: bool, startPos: Option<nat>,
                      looks: nat, payload: array?<nat>, payloadLen: nat, from: nat)
    returns (result: WaitResult, knockEnd: nat, payloadEnd: nat)
    requires Reading(ring, from, if startPos.Some? then startPos.value else ring.writePos)
    requires startPos.None? ==> from == ring.captured
    requires |knock.matches| > 0
    requires payload != null ==> payloadLen <= payload.Length && payload != ring.entries
    modifies ring, ring.entries, payload
    ensures ring.Valid()
    ensures result == Invalid <==> payloadLen > 0 && payload == null
    ensures result.Done? ==>
      && from <= knockEnd <= payloadEnd <= ring.captured
      && EndsWith(Heard(ring, knock, debounce, from, knockEnd), knock.matches, |knock.matches|)
      && (payload != null ==>
            payload[..payloadLen] == Kept(ring.stream, knock, debounce, knockEnd, payloadEnd))
      && |Kept(ring.stream, knock, debounce, knockEnd, payloadEnd)| == payloadLen
      && result.nextRead == payloadEnd % ring.entries.Length
      && (Resumes(knock.matches) ==>
            var words := Heard(ring, knock, debounce, from, knockEnd);
            NotYet(words, knock.matches, |words|))
    ensures result.Done? ==> FirstHeardAt(ring, knock, debounce, from, knockEnd)
    ensures result == Waiting ==>
      && StillWaits(ring, knock, debounce, from, knockEnd, payloadEnd, payloadLen)
      && (looks > 0 ==> payloadEnd >= old(ring.captured))
  {
    var readPos := ring.writePos;
    if startPos.Some? { readPos := startPos.value; }
    knockEnd, payloadEnd := from, from;
    if payloadLen > 0 && payload == null { return Invalid, from, from; }
    var heard: bool;
    heard, readPos, knockEnd := DetectKnock(ring, knock, debounce, readPos, looks, from);
    if !heard { return Waiting, knockEnd, knockEnd; }
    if payload == null {
      return Done(readPos), knockEnd, knockEnd;
    }
    var full: bool;
    full, readPos, payloadEnd := CollectPayload(ring, knock, debounce, readPos, looks, payload,
                                                payloadLen, knockEnd);
    if !full { return Waiting, knockEnd, payloadEnd; }
    result := Done(readPos);
  }

  // Captures that end with a plugin's knock: the addresses they decode to end with its sequence,
  // as far as the knock bits go.
  predicate AddressesEndWith(slot: RomSlot, kept: seq<nat>, knockSeq: seq<nat>, bits: nat)
  {
    && |knockSeq| <= |kept|
    && forall k :: 0 <= k < |knockSeq| ==> SameLowBits(slot, kept[|kept| - |knockSeq| + k], knockSeq[k], bits)
  }

  predicate SameLowBits(slot: RomSlot, entry: nat, value: nat, bits: nat)
  {
    Observed(slot, entry, false).logical % Pow2(bits) == value % Pow2(bits)
  }

  // What the wait matches raw is the plugin's sequence of addresses, for any knock the set-up
  // returns, where no knocked line is forced.
  lemma KnockIsAddressSequence(slot: RomSlot, knockSeq: seq<nat>, bits: nat, dataSize: nat, knock: Knock,
                               kept: seq<nat>)
    requires slot.Valid() && bits <= |AddrLines(slot)|
    requires Initialised(slot, knockSeq, bits, dataSize, knock)
    requires Distinct(AddrLines(slot)) && Within(AddrLines(slot), 32) && Unforced(AddrLines(slot)[..bits])
    ensures EndsWith(Masked(kept, knock.mask), knock.matches, |knock.matches|)
       <==> AddressesEndWith(slot, kept, knockSeq, bits)
  {
    var words := Masked(kept, knock.mask);
    EndsWithEach(words, knock.matches);
    if |knockSeq| <= |kept| {
      forall k | 0 <= k < |knockSeq|
        ensures words[|kept| - |knockSeq| + k] == knock.matches[k]
           <==> SameLowBits(slot, kept[|kept| - |knockSeq| + k], knockSeq[k], bits)
      {
        RawMatchIsAddressMatch(slot, kept[|kept| - |knockSeq| + k], knockSeq[k], bits);
      }
    }
  }

  lemma EndsWithEach(words: seq<nat>, matches: seq<nat>)
    ensures EndsWith(words, matches, |matches|)
       <==> |matches| <= |words| && forall k :: 0 <= k < |matches| ==> words[|words| - |matches| + k] == matches[k]
  {
    if |matches| <= |words| {
      var tail := words[|words| - |matches|..];
      assert matches[..|matches|] == matches;
      assert forall k :: 0 <= k < |matches| ==> tail[k] == words[|words| - |matches| + k];
    }
  }
}

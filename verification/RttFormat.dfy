/** Formatted fields, collected in chunks and handed to a log channel (firmware/src/rtt.c). */
module RttFormat {
  import opened RttRing
  import opened RttDigits

  // ONEROM_RTT_PRINTF_BUFFER_SIZE
  const BUFFER_SIZE: nat := 64

  datatype Flags = Flags(left: bool, zero: bool, alt: bool, plus: bool, space: bool, ptr: bool)

  // ---------------------------------------------------------------------------------------------
  // Chunks
  // ---------------------------------------------------------------------------------------------

  function Flatten(chunks: seq<seq<Byte>>): seq<Byte>
  {
    if chunks == [] then [] else Flatten(chunks[..|chunks| - 1]) + chunks[|chunks| - 1]
  }

  // What a ring of `size` bytes holds once chunks have been written one after the other, each whole
  // or not at all, with nothing read meanwhile.
  function Queued(start: seq<Byte>, chunks: seq<seq<Byte>>, size: nat): seq<Byte>
  {
    if chunks == [] then start
    else
      var before, chunk := Queued(start, chunks[..|chunks| - 1], size), chunks[|chunks| - 1];
      if |before| + |chunk| < size then before + chunk else before
  }

  // With room for the whole text, all of it is queued.
  lemma {:induction false} AllQueued(start: seq<Byte>, chunks: seq<seq<Byte>>, size: nat)
    requires |start| + |Flatten(chunks)| < size
    ensures Queued(start, chunks, size) == start + Flatten(chunks)
    decreases |chunks|
  {
    if chunks != [] {
      AllQueued(start, chunks[..|chunks| - 1], size);
      assert start + Flatten(chunks[..|chunks| - 1]) + chunks[|chunks| - 1] == start + Flatten(chunks);
    } else {
      assert start + [] == start;
    }
  }

  // One more chunk written, whole or not at all.
  lemma OneMoreChunk(start: seq<Byte>, chunks: seq<seq<Byte>>, chunk: seq<Byte>, size: nat, written: nat)
    requires written == if |Queued(start, chunks, size)| + |chunk| < size then |chunk| else 0
    ensures Queued(start, chunks + [chunk], size) == Queued(start, chunks, size) + chunk[..written]
    ensures Flatten(chunks + [chunk]) + [] == Flatten(chunks) + chunk
  {
    assert (chunks + [chunk])[..|chunks|] == chunks;
  }

  function Repeat(c: char, count: int): (s: seq<char>)
    ensures |s| == if count > 0 then count else 0
    ensures forall i :: 0 <= i < |s| ==> s[i] == c
  {
    if count <= 0 then [] else Repeat(c, count - 1) + [c]
  }

  lemma TakeMore(text: seq<char>, k: nat)
    requires k < |text|
    ensures text[..k + 1] == text[..k] + [text[k]]
  {
  }

  predicate Chunks(chunks: seq<seq<Byte>>) { forall i :: 0 <= i < |chunks| ==> 0 < |chunks[i]| <= BUFFER_SIZE }

  // A record being formatted.
  class Formatter {
    const buf: array<Byte>
    var len: nat
    const ring: Ring

    // What the ring held at first, and what it has been handed since.
    ghost const start: seq<Byte>
    ghost var chunks: seq<seq<Byte>>

    ghost function Room(): nat reads ring { if ring.Present() then ring.size else 0 }

    ghost predicate Valid()
      reads this, buf, ring, ring.buffer
    {
      && buf.Length == BUFFER_SIZE && len <= BUFFER_SIZE
      && ring.Valid() && buf != ring.buffer
      && Chunks(chunks)
      && ring.Contents() == Queued(start, chunks, Room())
    }

    // Everything formatted so far.
    ghost function Text(): seq<Byte>
      requires Valid()
      reads this, buf, ring, ring.buffer
    {
      Flatten(chunks) + buf[..len]
    }

    // What every method here keeps.
    twostate predicate Kept()
      reads this, ring
    {
      && ring.buffer == old(ring.buffer) && ring.size == old(ring.size)
      && ring.readOffset == old(ring.readOffset)
    }

    constructor (ring: Ring)
      requires ring.Valid()
      ensures Valid() && this.ring == ring && Text() == [] && chunks == [] && start == ring.Contents()
      ensures fresh(buf) && unchanged(ring) && (ring.buffer != null ==> unchanged(ring.buffer))
    {
      buf := new Byte[BUFFER_SIZE];
      len := 0;
      this.ring := ring;
      start := ring.Contents();
      chunks := [];
    }

    method Flush()
      requires Valid()
      modifies this, ring`writeOffset, ring.buffer
      ensures Valid() && Kept() && Text() == old(Text()) && len == 0
    {
      if len != 0 {
        ghost var chunk := buf[..len];
        var written := ring.Write(buf, len);
        OneMoreChunk(start, chunks, chunk, Room(), written);
        assert buf[..written] == chunk[..written] && buf[..0] == [];
        chunks := chunks + [chunk];
        len := 0;
      }
    }

    method Putc(c: Byte)
      requires Valid()
      modifies this, buf, ring`writeOffset, ring.buffer
      ensures Valid() && Kept() && Text() == old(Text()) + [c]
    {
      if len >= BUFFER_SIZE {
        Flush();
      }
      Store(c);
    }

    // f->buf[f->len++] = c
    method Store(c: Byte)
      requires Valid() && len < BUFFER_SIZE
      modifies this, buf
      ensures Valid() && Text() == old(Text()) + [c]
    {
      buf[len] := c;
      len := len + 1;
      assert buf[..len] == old(buf[..len]) + [c];
      assert Flatten(chunks) + (old(buf[..len]) + [c]) == (Flatten(chunks) + old(buf[..len])) + [c];
    }

    method Pad(c: Byte, count: int)
      requires Valid()
      modifies this, buf, ring`writeOffset, ring.buffer
      ensures Valid() && Kept() && Text() == old(Text()) + Repeat(c, count)
    {
      var left := count;
      while left > 0
        invariant Valid() && Kept()
        invariant left <= count && (count >= 0 ==> left >= 0) && (count < 0 ==> left == count)
        invariant Text() == old(Text()) + Repeat(c, count - left)
      {
        ghost var done := Repeat(c, count - left);
        Putc(c);
        left := left - 1;
        assert Repeat(c, count - left) == done + [c];
      }
    }

    // The sign and prefix.
    method PutLead(n: Number)
      requires Valid()
      modifies this, buf, ring`writeOffset, ring.buffer
      ensures Valid() && Kept() && Text() == old(Text()) + Lead(n)
    {
      var lead := BuildLead(n);
      PutAll(lead);
    }

    method PutAll(text: seq<Byte>)
      requires Valid()
      modifies this, buf, ring`writeOffset, ring.buffer
      ensures Valid() && Kept() && Text() == old(Text()) + text
    {
      for ii := 0 to |text|
        invariant Valid() && Kept() && Text() == old(Text()) + text[..ii]
      {
        Putc(text[ii]);
        assert text[..ii + 1] == text[..ii] + [text[ii]];
      }
      assert text[..|text|] == text;
    }

    // The digits, last in the array first.
    method PutDigits(digits: array<char>, count: nat)
      requires Valid() && count <= digits.Length && digits != buf && digits != ring.buffer
      modifies this, buf, ring`writeOffset, ring.buffer
      ensures Valid() && Kept() && Text() == old(Text()) + Reversed(old(digits[..count]))
    {
      ghost var text := Reversed(digits[..count]);
      forall k | 0 <= k < count
        ensures digits[k] == text[count - 1 - k]
      {
        ReversedAt(digits[..count], count - 1 - k);
      }
      var left := count;
      while left > 0
        invariant left <= count && Valid() && Kept()
        invariant forall k :: 0 <= k < count ==> digits[k] == text[count - 1 - k]
        invariant Text() == old(Text()) + text[..count - left]
      {
        left := left - 1;
        Putc(digits[left]);
        TakeMore(text, count - left - 1);
      }
      assert text[..count] == text;
    }

    method FmtNumber(n: Number)
      requires Valid() && n.Valid()
      modifies this, buf, ring`writeOffset, ring.buffer
      ensures Valid() && Kept() && Text() == old(Text()) + Rendered(n)
    {
      var digits := new char[64];
      var ndigits := 0;
      if !(n.precision == 0 && n.value == 0) {
        ndigits := FmtDigits(n.value, n.base, n.upper, digits);
      }
      var pad, zeros := MeasureNumber(n, digits, ndigits);
      EmitNumber(n, pad, zeros, digits, ndigits);
      RenderedParts(n, old(Text()), pad, zeros);
    }

    method EmitNumber(n: Number, pad: int, zeros: int, digits: array<char>, ndigits: nat)
      requires Valid() && ndigits <= digits.Length && digits != buf && digits != ring.buffer
      modifies this, buf, ring`writeOffset, ring.buffer
      ensures Valid() && Kept()
      ensures Text() == old(Text()) + Before(n, pad) + Lead(n) + Repeat('0', zeros)
                        + Reversed(old(digits[..ndigits])) + After(n, pad)
    {
      PadIf(!n.flags.left, pad);
      PutLead(n);
      Pad('0', zeros);
      PutDigits(digits, ndigits);
      PadIf(n.flags.left, pad);
    }

    // The spaces of one side.
    method PadIf(here: bool, count: int)
      requires Valid()
      modifies this, buf, ring`writeOffset, ring.buffer
      ensures Valid() && Kept() && Text() == old(Text()) + (if here then Repeat(' ', count) else [])
    {
      if here {
        Pad(' ', count);
      }
    }
  }

  // ---------------------------------------------------------------------------------------------
  // Numbers
  // ---------------------------------------------------------------------------------------------

  // A conversion of a number.  A negative precision is none.
  datatype Number = Number(value: nat, base: nat, upper: bool, negative: bool, flags: Flags,
                           width: int, precision: int)
  {
    predicate Valid() { value < U64 && Base(base) }
  }

  function Sign(n: Number): seq<char>
  {
    if n.negative then ['-'] else if n.flags.plus then ['+'] else if n.flags.space then [' '] else []
  }

  function Prefix(n: Number): seq<char>
  {
    if !n.flags.alt then []
    else if n.base == 16 && (n.value != 0 || n.flags.ptr) then ['0', if n.upper then 'X' else 'x']
    else if n.base == 2 && n.value != 0 then ['0', if n.upper then 'B' else 'b']
    else []
  }

  function Lead(n: Number): seq<char> { Sign(n) + Prefix(n) }

  function DigitsOf(n: Number): seq<char>
    requires n.Valid()
  {
    if n.precision == 0 && n.value == 0 then [] else NumberText(n.value, n.base, n.upper)
  }

  method BuildLead(n: Number) returns (lead: seq<char>)
    ensures lead == Lead(n)
  {
    lead := [];
    if n.negative {
      lead := lead + ['-'];
    } else if n.flags.plus {
      lead := lead + ['+'];
    } else if n.flags.space {
      lead := lead + [' '];
    }
    if n.flags.alt {
      if n.base == 16 && (n.value != 0 || n.flags.ptr) {
        lead := lead + ['0'];
        lead := lead + [if n.upper then 'X' else 'x'];
      } else if n.base == 2 && n.value != 0 {
        lead := lead + ['0'];
        lead := lead + [if n.upper then 'B' else 'b'];
      }
    }
  }

  // The precision once # has made sure of an octal number's leading 0.
  function Forced(n: Number): int
    requires n.Valid()
  {
    var digits := DigitsOf(n);
    if !(n.flags.alt && n.base == 8) then n.precision
    else if digits == [] then 1
    else if digits[0] != '0' && n.precision <= |digits| then |digits| + 1
    else n.precision
  }

  function More(a: int, b: int): int { if a > b then a else b }

  function ZerosFor(n: Number): nat
    requires n.Valid()
  {
    if Forced(n) >= 0 then More(Forced(n) - |DigitsOf(n)|, 0) else 0
  }

  function PadFor(n: Number): int
    requires n.Valid()
  {
    n.width - |Lead(n)| - ZerosFor(n) - |DigitsOf(n)|
  }

  predicate ZeroFills(n: Number)
    requires n.Valid()
  {
    PadFor(n) > 0 && n.flags.zero && !n.flags.left && Forced(n) < 0
  }

  function Zeros(n: Number): int
    requires n.Valid()
  {
    if ZeroFills(n) then ZerosFor(n) + PadFor(n) else ZerosFor(n)
  }

  function Spaces(n: Number): int
    requires n.Valid()
  {
    if ZeroFills(n) then 0 else PadFor(n)
  }

  method MeasureNumber(n: Number, digits: array<char>, ndigits: nat) returns (pad: int, zeros: int)
    requires n.Valid() && ndigits <= digits.Length && Reversed(digits[..ndigits]) == DigitsOf(n)
    ensures pad == Spaces(n) && zeros == Zeros(n)
  {
    var precision := n.precision;
    if n.flags.alt && n.base == 8 {
      if ndigits == 0 {
        precision := 1;
      } else {
        ReversedAt(digits[..ndigits], 0);
        if digits[ndigits - 1] != '0' && precision <= ndigits {
          precision := ndigits + 1;
        }
      }
    }
    zeros := 0;
    if precision >= 0 && ndigits < precision {
      zeros := precision - ndigits;
    }
    pad := n.width - |Lead(n)| - zeros - ndigits;
    if pad > 0 && n.flags.zero && !n.flags.left && precision < 0 {
      zeros := zeros + pad;
      pad := 0;
    }
  }

  function Before(n: Number, pad: int): seq<char> { if n.flags.left then [] else Repeat(' ', pad) }

  function After(n: Number, pad: int): seq<char> { if n.flags.left then Repeat(' ', pad) else [] }

  // What fmt_number prints.
  function Rendered(n: Number): seq<char>
    requires n.Valid()
  {
    Before(n, Spaces(n)) + Lead(n) + Repeat('0', Zeros(n)) + DigitsOf(n) + After(n, Spaces(n))
  }

  lemma RenderedParts(n: Number, text: seq<char>, pad: int, zeros: int)
    requires n.Valid() && pad == Spaces(n) && zeros == Zeros(n)
    ensures text + Rendered(n)
         == text + Before(n, pad) + Lead(n) + Repeat('0', zeros) + DigitsOf(n) + After(n, pad)
  {
    Appended6(text, Before(n, pad), Lead(n), Repeat('0', zeros), DigitsOf(n), After(n, pad));
  }

  lemma Appended6(t: seq<char>, a: seq<char>, b: seq<char>, c: seq<char>, d: seq<char>, e: seq<char>)
    ensures t + (a + b + c + d + e) == t + a + b + c + d + e
  {
  }

  // ---------------------------------------------------------------------------------------------
  // What the C standard asks for (section 7.21.6.1 of ISO/IEC 9899:2011)
  // ---------------------------------------------------------------------------------------------

  function AtLeast(digits: seq<char>, count: int): seq<char> { Repeat('0', count - |digits|) + digits }

  // A sign, and # writes a number's base before it, but not before 0 (except in a pointer).
  function StandardLead(n: Number): seq<char>
  {
    var sign := if n.negative then "-" else if n.flags.plus then "+" else if n.flags.space then " " else "";
    var shown := n.flags.alt && (n.value != 0 || (n.flags.ptr && n.base == 16));
    match (n.base, n.upper)
    case (16, false) => sign + if shown then "0x" else ""
    case (16, true) => sign + if shown then "0X" else ""
    case (2, false) => sign + if shown then "0b" else ""
    case (2, true) => sign + if shown then "0B" else ""
    case _ => sign
  }

  lemma LeadIsStandard(n: Number)
    ensures Lead(n) == StandardLead(n)
  {
    assert Sign(n) + [] == Sign(n);
  }

  // The digits at the precision, and # makes an octal number begin with 0.
  function Body(n: Number): seq<char>
    requires n.Valid()
  {
    var digits := AtLeast(DigitsOf(n), n.precision);
    if n.flags.alt && n.base == 8 && (digits == [] || digits[0] != '0') then ['0'] + digits else digits
  }

  // Widened with zeros or spaces.
  function Laid(n: Number, lead: seq<char>): seq<char>
    requires n.Valid()
  {
    var spaces := Repeat(' ', n.width - |lead| - |Body(n)|);
    if n.flags.left then lead + Body(n) + spaces
    else if n.flags.zero && n.precision < 0 then lead + AtLeast(Body(n), n.width - |lead|)
    else spaces + lead + Body(n)
  }

  function Standard(n: Number): seq<char>
    requires n.Valid()
  {
    Laid(n, StandardLead(n))
  }

  // # on an octal number counts as a precision, and so turns zero filling off.
  predicate LosesZeroFill(n: Number)
    requires n.Valid()
  {
    && n.base == 8 && n.flags.alt && n.flags.zero && !n.flags.left && n.precision < 0
    && n.value != 0 && n.width > |Lead(n)| + |NumberText(n.value, 8, n.upper)| + 1
  }

  // The digits printed are the standard's, before any filling.
  lemma BodyPrinted(n: Number)
    requires n.Valid()
    ensures Body(n) == Repeat('0', ZerosFor(n)) + DigitsOf(n)
  {
    var digits := DigitsOf(n);
    NumberDecodes(n.value, n.base, n.upper);
    if n.flags.alt && n.base == 8 {
      if digits != [] && digits[0] != '0' && n.precision > |digits| {
        assert AtLeast(digits, n.precision)[0] == '0';
      }
    }
  }

  lemma FilledIsStandard(n: Number)
    requires n.Valid() && ZeroFills(n)
    ensures Rendered(n) == Laid(n, Lead(n)) && !LosesZeroFill(n)
  {
    BodyPrinted(n);
    NumberDecodes(n.value, n.base, n.upper);
    var lead, digits := Lead(n), DigitsOf(n);
    assert Body(n) == digits by { assert [] + digits == digits; }
    assert Spaces(n) <= 0 && Zeros(n) == n.width - |lead| - |digits|;
    assert Laid(n, Lead(n)) == lead + AtLeast(digits, n.width - |lead|);
    Unpadded(lead, Repeat('0', Zeros(n)), digits);
  }

  lemma Unpadded(lead: seq<char>, zeros: seq<char>, digits: seq<char>)
    ensures [] + lead + zeros + digits + [] == lead + (zeros + digits)
  {
  }

  lemma UnfilledIsStandard(n: Number)
    requires n.Valid() && !ZeroFills(n)
    requires PadFor(n) <= 0 || n.flags.left || !n.flags.zero || n.precision >= 0
    ensures Rendered(n) == Laid(n, Lead(n))
  {
    BodyPrinted(n);
    assert PadFor(n) == n.width - |Lead(n)| - |Body(n)|;
    var lead, zeros, digits := Lead(n), Repeat('0', Zeros(n)), DigitsOf(n);
    Grouped(Before(n, Spaces(n)), lead, zeros, digits, After(n, Spaces(n)));
  }

  lemma Grouped(a: seq<char>, b: seq<char>, c: seq<char>, d: seq<char>, e: seq<char>)
    ensures a + b + c + d + e == a + b + (c + d) + e
  {
  }

  lemma UnfilledButAsked(n: Number)
    requires n.Valid() && !ZeroFills(n)
    requires PadFor(n) > 0 && !n.flags.left && n.flags.zero && n.precision < 0
    ensures LosesZeroFill(n) && Rendered(n) != Laid(n, Lead(n))
  {
    NumberDecodes(n.value, n.base, n.upper);
    BodyPrinted(n);
    assert Laid(n, Lead(n))[|Lead(n)|] == '0';
    assert Rendered(n)[|Lead(n)|] != '0' by {
      assert |Lead(n)| <= 1 && Before(n, Spaces(n)) == Repeat(' ', PadFor(n));
    }
  }

  lemma LosesOnlyUnfilled(n: Number)
    requires n.Valid() && LosesZeroFill(n)
    ensures !ZeroFills(n) && PadFor(n) > 0
  {
    NumberDecodes(n.value, n.base, n.upper);
  }

  // Every flag, width and precision does what the standard says, with one exception.
  lemma PrintsStandard(n: Number)
    requires n.Valid()
    ensures Rendered(n) == Standard(n) <==> !LosesZeroFill(n)
  {
    LeadIsStandard(n);
    if LosesZeroFill(n) {
      LosesOnlyUnfilled(n);
      UnfilledButAsked(n);
    } else if ZeroFills(n) {
      FilledIsStandard(n);
    } else if PadFor(n) > 0 && !n.flags.left && n.flags.zero && n.precision < 0 {
      UnfilledButAsked(n);
    } else {
      UnfilledIsStandard(n);
    }
  }

  // %#08o of 8: the standard fills with zeros, and this prints spaces.
  function OctalEight(): Number { Number(8, 8, false, false, Flags(false, true, true, false, false, false), 8, -1) }

  lemma OctalDigits()
    ensures DigitsOf(OctalEight()) == ['1', '0'] && Lead(OctalEight()) == []
  {
    assert Significant(1, 8, false) == Significant(0, 8, false) + ['1'];
    assert Significant(8, 8, false) == Significant(1, 8, false) + ['0'];
  }

  lemma OctalLosesZeroFill()
    ensures LosesZeroFill(OctalEight())
    ensures Rendered(OctalEight())[0] == ' ' && Standard(OctalEight())[0] == '0'
    ensures Rendered(OctalEight()) != Standard(OctalEight())
  {
    OctalDigits();
    BodyPrinted(OctalEight());
    assert Forced(OctalEight()) == 3 && PadFor(OctalEight()) == 5;
  }

  // The field is as wide as asked for, or as it needs to be.
  lemma WidthHeld(n: Number)
    requires n.Valid()
    ensures |Rendered(n)| == More(n.width, |Lead(n)| + |Body(n)|)
  {
    BodyPrinted(n);
  }

  lemma {:induction false} LeadingZeros(count: nat, digits: seq<char>, base: nat)
    ensures Decode(Repeat('0', count) + digits, base) == Decode(digits, base)
    decreases |digits| + count
  {
    var text := Repeat('0', count) + digits;
    if digits != [] {
      assert text[..|text| - 1] == Repeat('0', count) + digits[..|digits| - 1];
      LeadingZeros(count, digits[..|digits| - 1], base);
    } else if count > 0 {
      assert text == Repeat('0', count - 1) + ['0'];
      DecodeLast(Repeat('0', count - 1), '0', base);
      assert Repeat('0', count - 1) == Repeat('0', count - 1) + [];
      LeadingZeros(count - 1, [], base);
    } else {
      assert text == digits;
    }
  }

  // Digits in one case of letters.
  predicate Cased(text: seq<char>, upper: bool)
  {
    forall i :: 0 <= i < |text| ==> text[i] in (if upper then "0123456789ABCDEF" else "0123456789abcdef")
  }

  lemma {:induction false} SignificantCased(value: nat, base: nat, upper: bool)
    requires Base(base)
    ensures Cased(Significant(value, base, upper), upper)
  {
    if value > 0 { SignificantCased(value / base, base, upper); }
  }

  // What is printed is spaces on one side, a sign, a prefix and digits that stand for the value.
  lemma NumberReadsBack(n: Number) returns (before: nat, body: seq<char>, after: nat)
    requires n.Valid()
    ensures Rendered(n) == Repeat(' ', before) + Sign(n) + Prefix(n) + body + Repeat(' ', after)
    ensures Decode(body, n.base) == n.value && (body == [] ==> n.value == 0) && Cased(body, n.upper)
    ensures if n.flags.left then before == 0 else after == 0
  {
    before := if n.flags.left then 0 else More(Spaces(n), 0);
    after := if n.flags.left then More(Spaces(n), 0) else 0;
    body := Repeat('0', Zeros(n)) + DigitsOf(n);
    LeadingZeros(Zeros(n), DigitsOf(n), n.base);
    NumberDecodes(n.value, n.base, n.upper);
    SignificantCased(n.value, n.base, n.upper);
    assert Before(n, Spaces(n)) == Repeat(' ', before) && After(n, Spaces(n)) == Repeat(' ', after);
    Regrouped(Before(n, Spaces(n)), Sign(n), Prefix(n), Repeat('0', Zeros(n)), DigitsOf(n), After(n, Spaces(n)));
  }

  lemma Regrouped(a: seq<char>, b: seq<char>, c: seq<char>, d: seq<char>, e: seq<char>, f: seq<char>)
    ensures a + (b + c) + d + e + f == a + b + c + (d + e) + f
  {
  }
}

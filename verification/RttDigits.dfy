/** Numbers turned into digits without a 64-bit division (firmware/src/rtt.c). */
module RttDigits {
  import opened Words

  const U64: nat := 0x1_0000_0000_0000_0000

  // ---------------------------------------------------------------------------------------------
  // fmt_div10
  // ---------------------------------------------------------------------------------------------

  // Each step of the sum brings it nearer to eight tenths of n, and leaves it short by little.
  lemma ThreeQuarters(n: nat, q: nat)
    requires q == n / 2 + n / 4
    ensures 4 * q <= 3 * n <= 4 * q + 5
  {
  }

  lemma PlusSixteenth(n: nat, q: nat, next: nat)
    requires 4 * q <= 3 * n <= 4 * q + 5 && next == q + q / 16
    ensures 64 * next <= 51 * n <= 64 * next + 145
  {
  }

  lemma Plus256th(n: nat, q: nat, next: nat)
    requires 64 * q <= 51 * n <= 64 * q + 145 && next == q + q / 256
    ensures 0x4000 * next <= 13107 * n <= 0x4000 * next + 53585
  {
  }

  lemma Plus65536th(n: nat, q: nat, next: nat)
    requires 0x4000 * q <= 13107 * n <= 0x4000 * q + 53585 && next == q + q / 65536
    ensures 0x4000_0000 * next <= 858993459 * n <= 0x4000_0000 * next + 4585536785
  {
  }

  lemma PlusLast(n: nat, q: nat, next: nat)
    requires 0x4000_0000 * q <= 858993459 * n <= 0x4000_0000 * q + 4585536785
    requires n < U64 && next == q + q / WORD
    ensures 10 * next <= 8 * n < 10 * next + 71
  {
  }

  // Within one of a tenth, with nothing over 64 bits on the way.
  lemma NearTenth(n: nat, last: nat)
    requires 10 * last <= 8 * n < 10 * last + 71
    ensures var q := last / 8; 10 * q <= n <= 10 * q + 19
  {
  }

  method FmtDiv10(n: nat) returns (q: nat, rem: nat)
    requires n < U64
    ensures q == n / 10 && rem == n % 10
  {
    q := n / 2 + n / 4;
    ThreeQuarters(n, q);
    assert q < U64;
    PlusSixteenth(n, q, q + q / 16);
    q := q + q / 16;
    assert q < U64;
    Plus256th(n, q, q + q / 256);
    q := q + q / 256;
    assert q < U64;
    Plus65536th(n, q, q + q / 65536);
    q := q + q / 65536;
    assert q < U64;
    PlusLast(n, q, q + q / WORD);
    q := q + q / WORD;
    assert q < U64;
    NearTenth(n, q);
    q := q / 8;
    assert (q * 4 + q) * 2 < U64;
    rem := n - (q * 4 + q) * 2;
    if rem > 9 {
      q := q + 1;
      rem := rem - 10;
    }
  }

  // ---------------------------------------------------------------------------------------------
  // Digits
  // ---------------------------------------------------------------------------------------------

  predicate Base(base: nat) { base in {2, 8, 10, 16} }

  const LOWER: string := "0123456789abcdef"
  const UPPER: string := "0123456789ABCDEF"

  function DigitChar(d: nat, upper: bool): char
    requires d < 16
  {
    if upper then UPPER[d] else LOWER[d]
  }

  // A digit's value, in either case.
  function DigitValue(c: char): nat
  {
    if '0' <= c <= '9' then (c - '0') as nat
    else if 'a' <= c <= 'f' then 10 + (c - 'a') as nat
    else if 'A' <= c <= 'F' then 10 + (c - 'A') as nat
    else 0
  }

  lemma DigitCharValue(d: nat, upper: bool)
    requires d < 16
    ensures DigitValue(DigitChar(d, upper)) == d
    ensures DigitChar(d, upper) == '0' <==> d == 0
  {
  }

  // The digits of a value, most significant first, and none for 0.
  function Significant(value: nat, base: nat, upper: bool): seq<char>
    requires Base(base)
  {
    if value == 0 then [] else Significant(value / base, base, upper) + [DigitChar(value % base, upper)]
  }

  function NumberText(value: nat, base: nat, upper: bool): seq<char>
    requires Base(base)
  {
    if value == 0 then ['0'] else Significant(value, base, upper)
  }

  // What digits stand for.
  function Decode(text: seq<char>, base: nat): nat
  {
    if text == [] then 0 else Decode(text[..|text| - 1], base) * base + DigitValue(text[|text| - 1])
  }

  lemma DecodeLast(text: seq<char>, c: char, base: nat)
    ensures Decode(text + [c], base) == Decode(text, base) * base + DigitValue(c)
  {
    assert (text + [c])[..|text|] == text;
  }

  lemma SignificantGrows(value: nat, base: nat, upper: bool)
    requires Base(base) && value > 0
    ensures Significant(value, base, upper)
         == Significant(value / base, base, upper) + [DigitChar(value % base, upper)]
  {
  }

  lemma {:induction false} SignificantDecodes(value: nat, base: nat, upper: bool)
    requires Base(base)
    ensures Decode(Significant(value, base, upper), base) == value
  {
    if value > 0 {
      var rest, digit := value / base, value % base;
      DivMod(value, base);
      MulCommutes(rest, base);
      SignificantDecodes(rest, base, upper);
      DigitCharValue(digit, upper);
      SignificantGrows(value, base, upper);
      DecodeLast(Significant(rest, base, upper), DigitChar(digit, upper), base);
    }
  }

  lemma {:induction false} NoLeadingZero(value: nat, base: nat, upper: bool)
    requires Base(base) && value > 0
    ensures Significant(value, base, upper) != [] && Significant(value, base, upper)[0] != '0'
  {
    DivMod(value, base);
    if value < base {
      DigitCharValue(value, upper);
      ModIs(value, base, 0, value);
    } else {
      ModIs(base, base, 1, 0);
      DivPositive(value, base);
      NoLeadingZero(value / base, base, upper);
    }
  }

  lemma DivPositive(value: nat, base: nat)
    requires 0 < base <= value
    ensures value / base > 0
  {
  }

  lemma Pow64(bits: nat)
    requires bits == 32
    ensures Pow2(bits + bits) == U64
  {
    Pow2Values();
    Pow2Adds(bits, bits);
  }

  // The digits of a number decode to it, the first of them is not 0 unless it is the only one, and
  // 64 are enough.
  lemma NumberDecodes(value: nat, base: nat, upper: bool)
    requires Base(base) && value < U64
    ensures Decode(NumberText(value, base, upper), base) == value
    ensures 1 <= |NumberText(value, base, upper)| <= 64
    ensures NumberText(value, base, upper)[0] == '0' <==> value == 0
  {
    if value == 0 {
      DecodeLast([], '0', base);
      assert [] + ['0'] == ['0'];
    } else {
      SignificantDecodes(value, base, upper);
      NoLeadingZero(value, base, upper);
      AtMost64(value, base, upper);
    }
  }

  lemma AtMost64(value: nat, base: nat, upper: bool)
    requires Base(base) && value < U64
    ensures |Significant(value, base, upper)| <= 64
  {
    Pow64(32);
    FitsIn(value, base, upper, 64);
  }

  lemma {:induction false} FitsIn(value: nat, base: nat, upper: bool, bits: nat)
    requires Base(base) && value < Pow2(bits)
    ensures |Significant(value, base, upper)| <= bits
  {
    if value > 0 {
      assert value / base <= value / 2 < Pow2(bits - 1);
      FitsIn(value / base, base, upper, bits - 1);
    }
  }

  function Reversed(s: seq<char>): (r: seq<char>)
    ensures |r| == |s|
  {
    if s == [] then [] else [s[|s| - 1]] + Reversed(s[..|s| - 1])
  }

  lemma {:induction false} ReversedAt(s: seq<char>, k: nat)
    requires k < |s|
    ensures Reversed(s)[k] == s[|s| - 1 - k]
  {
    if k > 0 { ReversedAt(s[..|s| - 1], k - 1); }
  }

  // x & (2^w - 1)
  lemma {:induction false} Masked(x: nat, w: nat)
    ensures And(x, Pow2(w) - 1) == x % Pow2(w)
  {
    if w == 0 {
      NoBitsInZero(x);
    } else {
      Masked(x / 2, w - 1);
      LowHalf(x, Pow2(w - 1));
      Halves(Pow2(w) - 1, Pow2(w - 1) - 1, 1);
      MaskStep(x, Pow2(w) - 1, (x / 2) % Pow2(w - 1));
    }
  }

  lemma AndHalves(x: nat, y: nat)
    ensures And(x, y) == 2 * And(x / 2, y / 2) + (if x % 2 == 1 && y % 2 == 1 then 1 else 0)
  {
  }

  lemma MaskStep(x: nat, mask: nat, half: nat)
    requires mask % 2 == 1 && And(x / 2, mask / 2) == half
    ensures And(x, mask) == 2 * half + x % 2
  {
    AndHalves(x, mask);
  }

  lemma LowHalf(x: nat, p: nat)
    requires p >= 1
    ensures x % (2 * p) == 2 * ((x / 2) % p) + x % 2
  {
    ModHalves(x, p);
    Joined(x % (2 * p), (x / 2) % p, x % 2);
  }

  lemma Joined(m: nat, half: nat, bit: nat)
    requires m / 2 == half && m % 2 == bit
    ensures m == 2 * half + bit
  {
  }

  lemma {:induction false} NoBitsInZero(x: nat)
    ensures And(x, 0) == 0
  {
    if x > 0 { NoBitsInZero(x / 2); }
  }

  function ShiftedBy(value: nat, base: nat): nat
  {
    if base == 2 then Shr(value, 1) else if base == 8 then Shr(value, 3) else Shr(value, 4)
  }

  // For a base that is a power of two, a mask and a shift divide.
  lemma MaskAndShift(value: nat, base: nat)
    requires Base(base) && base != 10
    ensures And(value, base - 1) == value % base < 16
    ensures ShiftedBy(value, base) == value / base && (value > 0 ==> ShiftedBy(value, base) < value)
  {
    assert Pow2(1) == 2 && Pow2(3) == 8 && Pow2(4) == 16;
    if base == 2 {
      Masked(value, 1);
    } else if base == 8 {
      Masked(value, 3);
    } else {
      Masked(value, 4);
    }
  }

  // What is still to come, then what `out` has, backwards.
  predicate Progress(value: nat, base: nat, upper: bool, left: nat, out: seq<char>)
    requires Base(base)
  {
    Significant(value, base, upper) == Significant(left, base, upper) + Reversed(out)
  }

  lemma ReversedMore(out: seq<char>, c: char)
    ensures Reversed(out + [c]) == [c] + Reversed(out)
  {
    assert (out + [c])[..|out|] == out;
  }

  lemma Regrouped(a: seq<char>, c: char, b: seq<char>)
    ensures (a + [c]) + b == a + ([c] + b)
  {
  }

  lemma OneMore(value: nat, base: nat, upper: bool, left: nat, out: seq<char>)
    requires Base(base) && left > 0 && value < U64 && Progress(value, base, upper, left, out)
    ensures Progress(value, base, upper, left / base, out + [DigitChar(left % base, upper)])
    ensures |out| < 64
  {
    var c := DigitChar(left % base, upper);
    SignificantGrows(left, base, upper);
    ReversedMore(out, c);
    Regrouped(Significant(left / base, base, upper), c, Reversed(out));
    NumberDecodes(value, base, upper);
    if value == 0 { assert false; }
  }

  // The digits, most significant last, and how many there are.
  method FmtDigits(value: nat, base: nat, upper: bool, out: array<char>) returns (n: nat)
    requires value < U64 && Base(base) && out.Length == 64
    modifies out
    ensures 1 <= n <= 64 && NumberText(value, base, upper) == Reversed(out[..n])
  {
    if value == 0 {
      out[0] := '0';
      assert out[..1] == ['0'] && ['0'][..0] == [];
      return 1;
    }
    if base == 10 {
      n := DecimalDigits(value, upper, out);
    } else {
      n := PowerDigits(value, base, upper, out);
    }
    NumberDecodes(value, base, upper);
    assert Significant(0, base, upper) + Reversed(out[..n]) == Reversed(out[..n]);
  }

  // out[n++] = map[digit]
  method StoreDigit(out: array<char>, n: nat, digit: nat, upper: bool,
                    ghost value: nat, ghost base: nat, ghost left: nat, ghost rest: nat)
    requires value < U64 && Base(base) && out.Length == 64 && n <= 64 && left > 0
    requires Progress(value, base, upper, left, out[..n])
    requires digit == left % base && rest == left / base
    modifies out
    ensures n < 64 && Progress(value, base, upper, rest, out[..n + 1])
  {
    OneMore(value, base, upper, left, out[..n]);
    out[n] := DigitChar(digit, upper);
    assert out[..n + 1] == old(out[..n]) + [out[n]];
  }

  method DecimalDigits(value: nat, upper: bool, out: array<char>) returns (n: nat)
    requires 0 < value < U64 && out.Length == 64
    modifies out
    ensures n <= 64 && Progress(value, 10, upper, 0, out[..n])
  {
    n := 0;
    var left: nat := value;
    assert out[..0] == [];
    while left > 0xFFFF_FFFF
      invariant n <= 64 && left <= value && Progress(value, 10, upper, left, out[..n])
    {
      var tenth, rem := FmtDiv10(left);
      StoreDigit(out, n, rem, upper, value, 10, left, tenth);
      n := n + 1;
      left := tenth;
    }
    while left != 0
      invariant n <= 64 && left < WORD && Progress(value, 10, upper, left, out[..n])
    {
      StoreDigit(out, n, left % 10, upper, value, 10, left, left / 10);
      n := n + 1;
      left := left / 10;
    }
  }

  method PowerDigits(value: nat, base: nat, upper: bool, out: array<char>) returns (n: nat)
    requires 0 < value < U64 && Base(base) && base != 10 && out.Length == 64
    modifies out
    ensures n <= 64 && Progress(value, base, upper, 0, out[..n])
  {
    n := 0;
    var left: nat := value;
    assert out[..0] == [];
    while left != 0
      invariant n <= 64 && Progress(value, base, upper, left, out[..n])
    {
      MaskAndShift(left, base);
      StoreDigit(out, n, And(left, base - 1), upper, value, base, left, ShiftedBy(left, base));
      n := n + 1;
      left := ShiftedBy(left, base);
    }
  }
}

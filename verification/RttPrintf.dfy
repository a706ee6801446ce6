/** The formatter's reading of a format string (onerom_rtt_vprintf in firmware/src/rtt.c). */
module RttPrintf {
  import opened Options
  import opened Words
  import opened RttRing
  import opened RttDigits
  import opened RttFormat

  datatype Length = AsInt | AsChar | AsShort | AsLong | AsLLong | AsSize

  // One argument, as it comes out when taken as a number and when taken as a string.  No text is a
  // null pointer.
  datatype Arg = Arg(num: int, text: Option<seq<char>>)

  function Modulus(length: Length): nat
  {
    match length
    case AsChar => 0x100
    case AsShort => 0x1_0000
    case AsLLong => U64
    case _ => WORD
  }

  // fmt_uarg and fmt_sarg
  function Unsigned(num: int, length: Length): (value: nat)
    ensures value < Modulus(length) <= U64
  {
    match length
    case AsChar => num % 0x100
    case AsShort => num % 0x1_0000
    case AsLLong => num % U64
    case _ => num % WORD
  }

  function Signed(num: int, length: Length): (value: int)
    ensures -(Modulus(length) / 2) <= value < Modulus(length) / 2
  {
    var value := Unsigned(num, length);
    if value < Modulus(length) / 2 then value else value - Modulus(length)
  }

  function Magnitude(value: int): nat { if value < 0 then -value else value }

  // ---------------------------------------------------------------------------------------------
  // What one conversion prints
  // ---------------------------------------------------------------------------------------------

  datatype Head = Head(flags: Flags, width: int, precision: int, length: Length)

  const NO_FLAGS := Flags(false, false, false, false, false, false)

  predicate IsNumber(conv: char) { conv in {'d', 'i', 'u', 'o', 'x', 'X', 'b', 'B', 'p'} }

  function NumberFor(conv: char, head: Head, num: int): (n: Number)
    requires IsNumber(conv)
    ensures n.Valid()
  {
    var unsignedFlags := head.flags.(plus := false, space := false);
    if conv in {'d', 'i'} then
      var value := Signed(num, head.length);
      Number(Magnitude(value), 10, false, value < 0, head.flags, head.width, head.precision)
    else if conv == 'p' then
      Number(num % WORD, 16, false, false, unsignedFlags.(alt := true, ptr := true), head.width, head.precision)
    else
      var base := if conv == 'u' then 10 else if conv == 'o' then 8 else if conv in {'x', 'X'} then 16 else 2;
      Number(Unsigned(num, head.length), base, conv in {'X', 'B'}, false, unsignedFlags, head.width, head.precision)
  }

  // As much of a string as the precision lets through.
  function Clipped(text: Option<seq<char>>, precision: int): seq<char>
  {
    var whole := if text.Some? then text.value else "(null)";
    if precision < 0 || |whole| <= precision then whole else whole[..precision]
  }

  function Padded(text: seq<char>, left: bool, width: int): (field: seq<char>)
    ensures |field| == More(width, |text|)
  {
    var pad := Repeat(' ', width - |text|);
    if left then text + pad else pad + text
  }

  function Printed(conv: char, head: Head, arg: Arg): seq<char>
  {
    if IsNumber(conv) then Rendered(NumberFor(conv, head, arg.num))
    else if conv == 'c' then Padded([(arg.num % 256) as char], head.flags.left, head.width)
    else if conv == 's' then Padded(Clipped(arg.text, head.precision), head.flags.left, head.width)
    else if conv == '%' then ['%']
    else ['%', '!', conv]
  }

  // An unsupported conversion takes its argument.  One that is not recognised takes none.
  function Takes(conv: char): nat
  {
    if IsNumber(conv) || conv in {'c', 's', 'f', 'F', 'e', 'E', 'g', 'G', 'a', 'A', 'n'} then 1 else 0
  }

  // ---------------------------------------------------------------------------------------------
  // The language of formats
  // ---------------------------------------------------------------------------------------------

  // A width or a precision: none, a decimal number, or taken from an argument.
  datatype Size = Absent | Fixed(n: nat) | Star

  // Literal text, or a conversion with its flags in the order written.
  datatype Directive =
    | Literal(c: char)
    | Conversion(flags: seq<char>, width: Size, precision: Size, length: Length, conv: char)

  predicate IsFlag(c: char) { c == '-' || c == '0' || c == '#' || c == '+' || c == ' ' }

  predicate IsDigit(c: char) { '0' <= c <= '9' }

  // The character at i is c.
  predicate Has(fmt: seq<char>, i: nat, c: char) { i < |fmt| && fmt[i] == c }

  // Where the flags that start at i end.
  function FlagsEnd(fmt: seq<char>, i: nat): (end: nat)
    requires i <= |fmt|
    ensures i <= end <= |fmt|
    decreases |fmt| - i
  {
    if i < |fmt| && IsFlag(fmt[i]) then FlagsEnd(fmt, i + 1) else i
  }

  function ReadNumber(fmt: seq<char>, i: nat, number: nat): (r: (nat, nat))
    requires i <= |fmt|
    ensures i <= r.1 <= |fmt|
    decreases |fmt| - i
  {
    if i < |fmt| && IsDigit(fmt[i]) then ReadNumber(fmt, i + 1, number * 10 + DigitValue(fmt[i])) else (number, i)
  }

  function ReadWidth(fmt: seq<char>, i: nat): (r: (Size, nat))
    requires i <= |fmt|
    ensures i <= r.1 <= |fmt|
  {
    if Has(fmt, i, '*') then (Star, i + 1)
    else
      var (n, end) := ReadNumber(fmt, i, 0);
      (if end == i then Absent else Fixed(n), end)
  }

  // A point with no digits is a precision of 0.
  function ReadPrecision(fmt: seq<char>, i: nat): (r: (Size, nat))
    requires i <= |fmt|
    ensures i <= r.1 <= |fmt|
  {
    if !Has(fmt, i, '.') then (Absent, i)
    else if Has(fmt, i + 1, '*') then (Star, i + 2)
    else
      var (n, end) := ReadNumber(fmt, i + 1, 0);
      (Fixed(n), end)
  }

  function ReadLength(fmt: seq<char>, i: nat): (r: (Length, nat))
    requires i <= |fmt|
    ensures i <= r.1 <= |fmt|
  {
    if Has(fmt, i, 'h') then if Has(fmt, i + 1, 'h') then (AsChar, i + 2) else (AsShort, i + 1)
    else if Has(fmt, i, 'l') then if Has(fmt, i + 1, 'l') then (AsLLong, i + 2) else (AsLong, i + 1)
    else if Has(fmt, i, 'z') then (AsSize, i + 1)
    else (AsInt, i)
  }

  // The conversion after a % at i - 1, its letter still missing, and where the letter is.
  function ReadHead(fmt: seq<char>, i: nat): (r: (Directive, nat))
    requires i <= |fmt|
    ensures i <= r.1 <= |fmt| && r.0.Conversion?
  {
    var flagsEnd := FlagsEnd(fmt, i);
    var (width, widthEnd) := ReadWidth(fmt, flagsEnd);
    var (precision, precisionEnd) := ReadPrecision(fmt, widthEnd);
    var (length, end) := ReadLength(fmt, precisionEnd);
    (Conversion(fmt[i..flagsEnd], width, precision, length, '%'), end)
  }

  // The directive at i, and where it ends.  There is none where the format ends inside a conversion.
  function ParseOne(fmt: seq<char>, i: nat): (r: (Option<Directive>, nat))
    requires i < |fmt|
    ensures i < r.1 <= |fmt| && (r.0.None? ==> r.1 == |fmt|)
  {
    if fmt[i] != '%' then (Some(Literal(fmt[i])), i + 1)
    else
      var (head, at) := ReadHead(fmt, i + 1);
      if at == |fmt| then (None, at) else (Some(head.(conv := fmt[at])), at + 1)
  }

  // The directives of a format from i on.
  function Parse(fmt: seq<char>, i: nat): seq<Directive>
    requires i <= |fmt|
    decreases |fmt| - i
  {
    if i == |fmt| then []
    else
      var (d, end) := ParseOne(fmt, i);
      if d.None? then [] else [d.value] + Parse(fmt, end)
  }

  // ---------------------------------------------------------------------------------------------
  // What a directive means
  // ---------------------------------------------------------------------------------------------

  function FlagSet(flags: seq<char>): Flags
  {
    Flags('-' in flags, '0' in flags, '#' in flags, '+' in flags, ' ' in flags, false)
  }

  function Stars(size: Size): nat { if size.Star? then 1 else 0 }

  // An int argument.
  function IntArg(args: nat -> Arg, k: nat): int { Signed(args(k).num, AsInt) }

  function SizeArg(size: Size, absent: int, args: nat -> Arg, k: nat): int
  {
    match size
    case Absent => absent
    case Fixed(n) => n
    case Star => IntArg(args, k)
  }

  // A negative width is a - flag and a width.
  function HeadOf(d: Directive, args: nat -> Arg, k: nat): (head: Head)
    requires d.Conversion?
    ensures !head.flags.ptr && head.width >= 0 && head.length == d.length
  {
    var width, flags := SizeArg(d.width, 0, args, k), FlagSet(d.flags);
    Head(if width < 0 then flags.(left := true) else flags, Magnitude(width),
         SizeArg(d.precision, -1, args, k + Stars(d.width)), d.length)
  }

  // The arguments a directive uses.
  function Uses(d: Directive): nat
  {
    if d.Literal? then 0 else Stars(d.width) + Stars(d.precision) + Takes(d.conv)
  }

  // A character to print, or a conversion with what it needs.
  datatype Piece = Plain(c: char) | Converted(conv: char, head: Head, arg: Arg)

  function PieceOf(d: Directive, args: nat -> Arg, k: nat): Piece
  {
    match d
    case Literal(c) => Plain(c)
    case Conversion(_, width, precision, _, conv) =>
      Converted(conv, HeadOf(d, args, k), args(k + Stars(width) + Stars(precision)))
  }

  function Show(piece: Piece): seq<char>
  {
    match piece
    case Plain(c) => [c]
    case Converted(conv, head, arg) => Printed(conv, head, arg)
  }

  function UsesAll(ds: seq<Directive>): nat
  {
    if ds == [] then 0 else UsesAll(ds[..|ds| - 1]) + Uses(ds[|ds| - 1])
  }

  // The text of directives: each prints with the arguments those before it leave.
  function Means(ds: seq<Directive>, args: nat -> Arg): seq<char>
  {
    if ds == [] then []
    else
      var before, last := ds[..|ds| - 1], ds[|ds| - 1];
      Means(before, args) + Show(PieceOf(last, args, UsesAll(before)))
  }

  // The text of a format.
  function Formatted(fmt: seq<char>, args: nat -> Arg): seq<char> { Means(Parse(fmt, 0), args) }

  // A field that is not a number.
  method FmtField(f: Formatter, text: seq<char>, left: bool, width: int)
    requires f.Valid()
    modifies f, f.buf, f.ring`writeOffset, f.ring.buffer
    ensures f.Valid() && f.Kept() && f.Text() == old(f.Text()) + Padded(text, left, width)
  {
    var pad := width - |text|;
    if !left {
      f.Pad(' ', pad);
    }
    f.PutAll(text);
    if left {
      f.Pad(' ', pad);
    }
    Grouped3(old(f.Text()), Repeat(' ', pad), text);
    Grouped3(old(f.Text()), text, Repeat(' ', pad));
  }

  lemma Grouped3(a: seq<char>, b: seq<char>, c: seq<char>)
    ensures a + b + c == a + (b + c)
  {
  }

  method FmtString(f: Formatter, text: Option<seq<char>>, head: Head)
    requires f.Valid()
    modifies f, f.buf, f.ring`writeOffset, f.ring.buffer
    ensures f.Valid() && f.Kept()
    ensures f.Text() == old(f.Text()) + Padded(Clipped(text, head.precision), head.flags.left, head.width)
  {
    var s := "(null)";
    if text.Some? { s := text.value; }
    var len := 0;
    while len < |s| && (head.precision < 0 || len < head.precision)
      invariant len <= |s| && (head.precision >= 0 ==> len <= head.precision)
    {
      len := len + 1;
    }
    assert s[..len] == Clipped(text, head.precision);
    FmtField(f, s[..len], head.flags.left, head.width);
  }

  method Convert(f: Formatter, conv: char, head: Head, arg: Arg)
    requires f.Valid()
    modifies f, f.buf, f.ring`writeOffset, f.ring.buffer
    ensures f.Valid() && f.Kept() && f.Text() == old(f.Text()) + Printed(conv, head, arg)
  {
    if IsNumber(conv) {
      f.FmtNumber(NumberFor(conv, head, arg.num));
    } else if conv == 'c' {
      FmtField(f, [(arg.num % 256) as char], head.flags.left, head.width);
    } else if conv == 's' {
      FmtString(f, arg.text, head);
    } else if conv == '%' {
      f.Putc('%');
    } else {
      f.PutAll(['%', '!', conv]);
    }
  }

  // ---------------------------------------------------------------------------------------------
  // onerom_rtt_vprintf
  // ---------------------------------------------------------------------------------------------

  lemma FlagSetMore(flags: seq<char>, c: char)
    requires IsFlag(c)
    ensures FlagSet(flags + [c])
         == var all := FlagSet(flags);
            all.(left := all.left || c == '-', zero := all.zero || c == '0', alt := all.alt || c == '#',
                 plus := all.plus || c == '+', space := all.space || c == ' ')
  {
    assert forall other :: other in flags + [c] <==> other in flags || other == c;
  }

  method ScanFlags(fmt: seq<char>, start: nat) returns (i: nat, flags: Flags)
    requires start <= |fmt|
    ensures i <= |fmt| && FlagsEnd(fmt, start) == i && flags == FlagSet(fmt[start..i])
  {
    i, flags := start, NO_FLAGS;
    while i < |fmt| && IsFlag(fmt[i])
      invariant start <= i <= |fmt|
      invariant FlagsEnd(fmt, start) == FlagsEnd(fmt, i) && flags == FlagSet(fmt[start..i])
    {
      FlagSetMore(fmt[start..i], fmt[i]);
      assert fmt[start..i + 1] == fmt[start..i] + [fmt[i]];
      if fmt[i] == '-' { flags := flags.(left := true); }
      else if fmt[i] == '0' { flags := flags.(zero := true); }
      else if fmt[i] == '#' { flags := flags.(alt := true); }
      else if fmt[i] == '+' { flags := flags.(plus := true); }
      else { flags := flags.(space := true); }
      i := i + 1;
    }
  }

  method ScanNumber(fmt: seq<char>, start: nat) returns (i: nat, number: nat)
    requires start <= |fmt|
    ensures start <= i <= |fmt| && ReadNumber(fmt, start, 0) == (number, i) && (i == start ==> number == 0)
  {
    i, number := start, 0;
    while i < |fmt| && IsDigit(fmt[i])
      invariant start <= i <= |fmt| && (i == start ==> number == 0)
      invariant ReadNumber(fmt, start, 0) == ReadNumber(fmt, i, number)
    {
      number := number * 10 + DigitValue(fmt[i]);
      i := i + 1;
    }
  }

  method ScanWidth(fmt: seq<char>, start: nat, args: nat -> Arg, k: nat)
    returns (i: nat, width: int, used: nat)
    requires start <= |fmt|
    ensures i <= |fmt|
    ensures var (size, end) := ReadWidth(fmt, start);
            end == i && width == SizeArg(size, 0, args, k) && used == k + Stars(size)
  {
    i, used := start, k;
    if Has(fmt, i, '*') {
      width := IntArg(args, used);
      used := used + 1;
      i := i + 1;
    } else {
      i, width := ScanNumber(fmt, i);
    }
  }

  method ScanPrecision(fmt: seq<char>, start: nat, args: nat -> Arg, k: nat)
    returns (i: nat, precision: int, used: nat)
    requires start <= |fmt|
    ensures i <= |fmt|
    ensures var (size, end) := ReadPrecision(fmt, start);
            end == i && precision == SizeArg(size, -1, args, k) && used == k + Stars(size)
  {
    i, precision, used := start, -1, k;
    if Has(fmt, i, '.') {
      i := i + 1;
      if Has(fmt, i, '*') {
        precision := IntArg(args, used);
        used := used + 1;
        i := i + 1;
      } else {
        i, precision := ScanNumber(fmt, i);
      }
    }
  }

  method ScanLength(fmt: seq<char>, start: nat) returns (i: nat, length: Length)
    requires start <= |fmt|
    ensures i <= |fmt| && ReadLength(fmt, start) == (length, i)
  {
    i, length := start, AsInt;
    if Has(fmt, i, 'h') {
      i := i + 1;
      length := AsShort;
      if Has(fmt, i, 'h') {
        i := i + 1;
        length := AsChar;
      }
    } else if Has(fmt, i, 'l') {
      i := i + 1;
      length := AsLong;
      if Has(fmt, i, 'l') {
        i := i + 1;
        length := AsLLong;
      }
    } else if Has(fmt, i, 'z') {
      i := i + 1;
      length := AsSize;
    }
  }

  method ScanHead(fmt: seq<char>, start: nat, args: nat -> Arg, k: nat)
    returns (i: nat, head: Head, used: nat)
    requires start <= |fmt|
    ensures start <= i <= |fmt|
    ensures var (d, end) := ReadHead(fmt, start);
            end == i && head == HeadOf(d, args, k) && used == k + Stars(d.width) + Stars(d.precision)
  {
    var flags: Flags, width: int, precision: int, length: Length;
    i, flags := ScanFlags(fmt, start);
    i, width, used := ScanWidth(fmt, i, args, k);
    if width < 0 {
      flags := flags.(left := true);
      width := -width;
    }
    i, precision, used := ScanPrecision(fmt, i, args, used);
    i, length := ScanLength(fmt, i);
    head := Head(flags, width, precision, length);
  }

  lemma ParseStep(fmt: seq<char>, i: nat, d: Option<Directive>, end: nat)
    requires i < |fmt| && ParseOne(fmt, i) == (d, end)
    ensures i < end <= |fmt|
    ensures Parse(fmt, i) == if d.None? then [] else [d.value] + Parse(fmt, end)
  {
  }

  // Reads one character, or one conversion.
  method ScanNext(fmt: seq<char>, start: nat, args: nat -> Arg, k: nat)
    returns (i: nat, used: nat, piece: Option<Piece>, ghost d: Option<Directive>)
    requires start < |fmt|
    ensures ParseOne(fmt, start) == (d, i)
    ensures piece == (if d.None? then None else Some(PieceOf(d.value, args, k)))
    ensures d.Some? ==> used == k + Uses(d.value)
  {
    if fmt[start] != '%' {
      d := Some(Literal(fmt[start]));
      return start + 1, k, Some(Plain(fmt[start])), d;
    }
    ghost var parsed := ReadHead(fmt, start + 1).0;
    var head: Head;
    i, head, used := ScanHead(fmt, start + 1, args, k);
    d, piece := None, None;
    if i < |fmt| {
      d := Some(parsed.(conv := fmt[i]));
      piece := Some(Converted(fmt[i], head, args(used)));
      used := used + Takes(fmt[i]);
      i := i + 1;
    }
  }

  method Emit(f: Formatter, piece: Piece)
    requires f.Valid()
    modifies f, f.buf, f.ring`writeOffset, f.ring.buffer
    ensures f.Valid() && f.Kept() && f.Text() == old(f.Text()) + Show(piece)
  {
    match piece
    case Plain(c) => f.Putc(c);
    case Converted(conv, head, arg) => Convert(f, conv, head, arg);
  }

  lemma OneMore(ds: seq<Directive>, d: Directive, args: nat -> Arg)
    ensures Means(ds + [d], args) == Means(ds, args) + Show(PieceOf(d, args, UsesAll(ds)))
    ensures UsesAll(ds + [d]) == UsesAll(ds) + Uses(d)
  {
    assert (ds + [d])[..|ds|] == ds;
  }

  lemma Regroup(a: seq<Directive>, d: Directive, b: seq<Directive>)
    ensures a + ([d] + b) == a + [d] + b
  {
  }

  // A record is printed into a formatter, character by character and conversion by conversion.
  method PrintAll(f: Formatter, fmt: seq<char>, args: nat -> Arg)
    requires f.Valid() && f.Text() == []
    modifies f, f.buf, f.ring`writeOffset, f.ring.buffer
    ensures f.Valid() && f.Kept() && f.Text() == Formatted(fmt, args)
  {
    var i: nat, used: nat := 0, 0;
    ghost var done: seq<Directive> := [];
    while i < |fmt|
      invariant i <= |fmt| && f.Valid() && f.Kept()
      invariant done + Parse(fmt, i) == Parse(fmt, 0)
      invariant f.Text() == Means(done, args) && used == UsesAll(done)
    {
      var piece: Option<Piece>;
      ghost var start, d: Option<Directive> := i, None;
      i, used, piece, d := ScanNext(fmt, i, args, used);
      ParseStep(fmt, start, d, i);
      if piece.None? { break; }
      Emit(f, piece.value);
      OneMore(done, d.value, args);
      Regroup(done, d.value, Parse(fmt, i));
      done := done + [d.value];
    }
    assert done + [] == done;
  }

  // Formats a record into a log channel.  The chunks handed to it are the formatted text, cut up.
  method VPrintf(ring: Ring, fmt: seq<char>, args: nat -> Arg) returns (ghost chunks: seq<seq<Byte>>)
    requires ring.Valid()
    modifies ring`writeOffset, ring.buffer
    ensures ring.Valid() && Chunks(chunks) && Flatten(chunks) == Formatted(fmt, args)
    ensures ring.Contents() == Queued(old(ring.Contents()), chunks, if ring.Present() then ring.size else 0)
    ensures ring.Present() && |old(ring.Contents())| + |Formatted(fmt, args)| < ring.size ==>
              ring.Contents() == old(ring.Contents()) + Formatted(fmt, args)
  {
    var f := new Formatter(ring);
    PrintAll(f, fmt, args);
    f.Flush();
    chunks := f.chunks;
    if |f.start| + |Flatten(chunks)| < ring.size {
      AllQueued(f.start, chunks, ring.size);
    }
  }

  // ---------------------------------------------------------------------------------------------
  // Writing a format
  // ---------------------------------------------------------------------------------------------

  // What can be written.  A width does not start with a 0, which would be a flag, and a conversion
  // letter is none of the characters that come before one.
  predicate Writable(d: Directive)
  {
    match d
    case Literal(c) => c != '%'
    case Conversion(flags, width, precision, length, conv) =>
      && (forall i :: 0 <= i < |flags| ==> flags[i] in {'-', '0', '#', '+', ' '})
      && (width.Fixed? ==> 0 < width.n < U64) && (precision.Fixed? ==> precision.n < U64)
      && !IsFlag(conv) && !IsDigit(conv) && conv !in {'*', '.', 'h', 'l', 'z'}
  }

  function Decimal(n: nat): seq<char> { NumberText(n, 10, false) }

  function SizeText(size: Size): seq<char>
  {
    match size
    case Absent => []
    case Fixed(n) => Decimal(n)
    case Star => ['*']
  }

  function LengthText(length: Length): seq<char>
  {
    match length
    case AsInt => ""
    case AsChar => "hh"
    case AsShort => "h"
    case AsLong => "l"
    case AsLLong => "ll"
    case AsSize => "z"
  }

  function PrecisionText(precision: Size): seq<char>
  {
    if precision.Absent? then [] else ['.'] + SizeText(precision)
  }

  // The text is there in the format, from i on.
  predicate Occurs(fmt: seq<char>, i: nat, text: seq<char>)
  {
    i + |text| <= |fmt| && forall j :: 0 <= j < |text| ==> fmt[i + j] == text[j]
  }

  // Where the parts of a conversion written from i on start.
  function WidthAt(d: Directive, i: nat): nat requires d.Conversion? { i + 1 + |d.flags| }

  function PrecisionAt(d: Directive, i: nat): nat
    requires d.Conversion?
  {
    WidthAt(d, i) + |SizeText(d.width)|
  }

  function LengthAt(d: Directive, i: nat): nat
    requires d.Conversion?
  {
    PrecisionAt(d, i) + |PrecisionText(d.precision)|
  }

  function ConvAt(d: Directive, i: nat): nat
    requires d.Conversion?
  {
    LengthAt(d, i) + |LengthText(d.length)|
  }

  function EndOf(d: Directive, i: nat): nat { if d.Literal? then i + 1 else ConvAt(d, i) + 1 }

  // A directive is written in the format from i on.
  predicate Spells(fmt: seq<char>, i: nat, d: Directive)
  {
    match d
    case Literal(c) => Has(fmt, i, c)
    case Conversion(flags, width, precision, length, conv) =>
      && Has(fmt, i, '%')
      && Occurs(fmt, i + 1, flags)
      && Occurs(fmt, WidthAt(d, i), SizeText(width))
      && Occurs(fmt, PrecisionAt(d, i), PrecisionText(precision))
      && Occurs(fmt, LengthAt(d, i), LengthText(length))
      && Has(fmt, ConvAt(d, i), conv)
  }

  // The format, from i on, is the directives written one after the other.
  predicate SpellsAll(fmt: seq<char>, i: nat, ds: seq<Directive>)
    decreases |ds|
  {
    if ds == [] then i == |fmt|
    else Writable(ds[0]) && Spells(fmt, i, ds[0]) && SpellsAll(fmt, EndOf(ds[0], i), ds[1..])
  }

  // ---------------------------------------------------------------------------------------------
  // Reading what is written
  // ---------------------------------------------------------------------------------------------

  lemma OccursTail(fmt: seq<char>, i: nat, text: seq<char>)
    requires text != [] && Occurs(fmt, i, text)
    ensures fmt[i] == text[0] && Occurs(fmt, i + 1, text[1..])
  {
    assert fmt[i + 0] == text[0];
    forall j | 0 <= j < |text| - 1
      ensures fmt[i + 1 + j] == text[1..][j]
    {
      assert fmt[i + (j + 1)] == text[j + 1];
    }
  }

  lemma {:induction false} FlagsRead(fmt: seq<char>, i: nat, text: seq<char>)
    requires Occurs(fmt, i, text) && forall j :: 0 <= j < |text| ==> IsFlag(text[j])
    requires i + |text| < |fmt| ==> !IsFlag(fmt[i + |text|])
    ensures FlagsEnd(fmt, i) == i + |text|
    decreases |text|
  {
    if text != [] {
      OccursTail(fmt, i, text);
      FlagsRead(fmt, i + 1, text[1..]);
    }
  }

  // A number read digit by digit from the front.
  function Accumulate(number: nat, text: seq<char>): nat
    decreases |text|
  {
    if text == [] then number else Accumulate(number * 10 + DigitValue(text[0]), text[1..])
  }

  lemma {:induction false} AccumulateLast(number: nat, text: seq<char>, c: char)
    ensures Accumulate(number, text + [c]) == Accumulate(number, text) * 10 + DigitValue(c)
    decreases |text|
  {
    if text == [] {
      assert text + [c] == [c] && [c][1..] == [];
    } else {
      assert (text + [c])[1..] == text[1..] + [c];
      AccumulateLast(number * 10 + DigitValue(text[0]), text[1..], c);
    }
  }

  lemma {:induction false} AccumulateDecodes(text: seq<char>)
    ensures Accumulate(0, text) == Decode(text, 10)
    decreases |text|
  {
    if text != [] {
      AccumulateDecodes(text[..|text| - 1]);
      AccumulateLast(0, text[..|text| - 1], text[|text| - 1]);
      assert text == text[..|text| - 1] + [text[|text| - 1]];
    }
  }

  lemma {:induction false} NumberRead(fmt: seq<char>, i: nat, text: seq<char>, number: nat)
    requires Occurs(fmt, i, text) && forall j :: 0 <= j < |text| ==> IsDigit(text[j])
    requires i + |text| < |fmt| ==> !IsDigit(fmt[i + |text|])
    ensures ReadNumber(fmt, i, number) == (Accumulate(number, text), i + |text|)
    decreases |text|
  {
    if text != [] {
      OccursTail(fmt, i, text);
      NumberRead(fmt, i + 1, text[1..], number * 10 + DigitValue(text[0]));
    }
  }

  lemma {:induction false} SignificantDigits(n: nat)
    ensures forall i :: 0 <= i < |Significant(n, 10, false)| ==> IsDigit(Significant(n, 10, false)[i])
  {
    if n > 0 { SignificantDigits(n / 10); }
  }

  // A decimal number, written and read.
  lemma DecimalRead(fmt: seq<char>, i: nat, n: nat)
    requires n < U64 && Occurs(fmt, i, Decimal(n))
    requires i + |Decimal(n)| < |fmt| ==> !IsDigit(fmt[i + |Decimal(n)|])
    ensures ReadNumber(fmt, i, 0) == (n, i + |Decimal(n)|)
  {
    SignificantDigits(n);
    NumberDecodes(n, 10, false);
    AccumulateDecodes(Decimal(n));
    NumberRead(fmt, i, Decimal(n), 0);
  }

  lemma DecimalStarts(n: nat)
    requires n < U64
    ensures Decimal(n) != [] && IsDigit(Decimal(n)[0]) && (n > 0 ==> Decimal(n)[0] != '0')
  {
    SignificantDigits(n);
    NumberDecodes(n, 10, false);
  }

  // What may follow a width or a precision.
  predicate Follows(fmt: seq<char>, i: nat) { i < |fmt| && !IsDigit(fmt[i]) && fmt[i] != '*' }

  lemma WidthRead(fmt: seq<char>, i: nat, width: Size)
    requires (width.Fixed? ==> width.n < U64) && Occurs(fmt, i, SizeText(width))
    requires Follows(fmt, i + |SizeText(width)|)
    ensures ReadWidth(fmt, i) == (width, i + |SizeText(width)|)
  {
    match width
    case Absent =>
    case Fixed(n) =>
      DecimalStarts(n);
      OccursTail(fmt, i, Decimal(n));
      DecimalRead(fmt, i, n);
    case Star =>
      OccursTail(fmt, i, ['*']);
  }

  lemma FixedPrecisionRead(fmt: seq<char>, i: nat, n: nat)
    requires n < U64 && Has(fmt, i, '.') && Occurs(fmt, i + 1, Decimal(n))
    requires Follows(fmt, i + 1 + |Decimal(n)|)
    ensures ReadPrecision(fmt, i) == (Fixed(n), i + 1 + |Decimal(n)|)
  {
    DecimalStarts(n);
    OccursTail(fmt, i + 1, Decimal(n));
    DecimalRead(fmt, i + 1, n);
  }

  lemma PrecisionRead(fmt: seq<char>, i: nat, precision: Size)
    requires (precision.Fixed? ==> precision.n < U64) && Occurs(fmt, i, PrecisionText(precision))
    requires Follows(fmt, i + |PrecisionText(precision)|) && fmt[i + |PrecisionText(precision)|] != '.'
    ensures ReadPrecision(fmt, i) == (precision, i + |PrecisionText(precision)|)
  {
    if !precision.Absent? {
      PrecisionStarts(fmt, i, precision);
      if precision.Fixed? {
        FixedPrecisionRead(fmt, i, precision.n);
      } else {
        OccursTail(fmt, i + 1, ['*']);
      }
    }
  }

  lemma PrecisionStarts(fmt: seq<char>, i: nat, precision: Size)
    requires !precision.Absent? && Occurs(fmt, i, PrecisionText(precision))
    ensures Has(fmt, i, '.') && Occurs(fmt, i + 1, SizeText(precision))
  {
    OccursTail(fmt, i, PrecisionText(precision));
    assert PrecisionText(precision)[1..] == SizeText(precision);
  }

  predicate EndsLength(fmt: seq<char>, i: nat)
  {
    i < |fmt| && fmt[i] != 'h' && fmt[i] != 'l' && fmt[i] != 'z'
  }

  lemma LengthRead(fmt: seq<char>, i: nat, length: Length)
    requires Occurs(fmt, i, LengthText(length)) && EndsLength(fmt, i + |LengthText(length)|)
    ensures ReadLength(fmt, i) == (length, i + |LengthText(length)|)
  {
    var text := LengthText(length);
    if text != [] {
      OccursTail(fmt, i, text);
      if |text| == 2 { OccursTail(fmt, i + 1, text[1..]); }
    }
  }

  // What comes first after each part.
  lemma LengthFollows(fmt: seq<char>, i: nat, d: Directive)
    requires d.Conversion? && Writable(d) && Spells(fmt, i, d)
    ensures EndsLength(fmt, ConvAt(d, i))
    ensures Follows(fmt, LengthAt(d, i)) && fmt[LengthAt(d, i)] != '.' && !IsFlag(fmt[LengthAt(d, i)])
  {
    if LengthText(d.length) != [] {
      OccursTail(fmt, LengthAt(d, i), LengthText(d.length));
    }
  }

  lemma PrecisionFollows(fmt: seq<char>, i: nat, d: Directive)
    requires d.Conversion? && Writable(d) && Spells(fmt, i, d)
    ensures Follows(fmt, PrecisionAt(d, i)) && !IsFlag(fmt[PrecisionAt(d, i)])
  {
    LengthFollows(fmt, i, d);
    if PrecisionText(d.precision) != [] {
      OccursTail(fmt, PrecisionAt(d, i), PrecisionText(d.precision));
    }
  }

  lemma WidthFollows(fmt: seq<char>, i: nat, d: Directive)
    requires d.Conversion? && Writable(d) && Spells(fmt, i, d)
    ensures WidthAt(d, i) < |fmt| && !IsFlag(fmt[WidthAt(d, i)])
  {
    PrecisionFollows(fmt, i, d);
    if d.width.Fixed? {
      DecimalStarts(d.width.n);
    }
    if SizeText(d.width) != [] {
      OccursTail(fmt, WidthAt(d, i), SizeText(d.width));
    }
  }

  // The parts read, one after the other, are the conversion read.
  lemma HeadFromParts(fmt: seq<char>, i: nat, width: Size, widthEnd: nat, precision: Size, precisionEnd: nat,
                      length: Length, end: nat)
    requires i <= |fmt| && ReadWidth(fmt, FlagsEnd(fmt, i)) == (width, widthEnd)
    requires ReadPrecision(fmt, widthEnd) == (precision, precisionEnd)
    requires ReadLength(fmt, precisionEnd) == (length, end)
    ensures ReadHead(fmt, i) == (Conversion(fmt[i..FlagsEnd(fmt, i)], width, precision, length, '%'), end)
  {
  }

  lemma FlagsPartRead(fmt: seq<char>, i: nat, d: Directive)
    requires d.Conversion? && Writable(d) && Spells(fmt, i, d)
    ensures i + 1 <= |fmt| && FlagsEnd(fmt, i + 1) == WidthAt(d, i)
    ensures fmt[i + 1..WidthAt(d, i)] == d.flags
  {
    WidthFollows(fmt, i, d);
    FlagsRead(fmt, i + 1, d.flags);
    forall j | 0 <= j < |d.flags|
      ensures fmt[i + 1..WidthAt(d, i)][j] == d.flags[j]
    {
      assert fmt[(i + 1) + j] == d.flags[j];
    }
  }

  // A conversion, written and read.
  lemma HeadRead(fmt: seq<char>, i: nat, d: Directive)
    requires d.Conversion? && Writable(d) && Spells(fmt, i, d)
    ensures ReadHead(fmt, i + 1) == (d.(conv := '%'), ConvAt(d, i))
  {
    FlagsPartRead(fmt, i, d);
    PrecisionFollows(fmt, i, d);
    WidthRead(fmt, WidthAt(d, i), d.width);
    LengthFollows(fmt, i, d);
    PrecisionRead(fmt, PrecisionAt(d, i), d.precision);
    LengthRead(fmt, LengthAt(d, i), d.length);
    HeadFromParts(fmt, i + 1, d.width, PrecisionAt(d, i), d.precision, LengthAt(d, i), d.length, ConvAt(d, i));
  }

  // One directive, written and read.
  lemma DirectiveRead(fmt: seq<char>, i: nat, d: Directive)
    requires Writable(d) && Spells(fmt, i, d)
    ensures i < EndOf(d, i) <= |fmt| && ParseOne(fmt, i) == (Some(d), EndOf(d, i))
  {
    if d.Conversion? { HeadRead(fmt, i, d); }
  }

  // A format written from directives is read back as those directives.
  lemma {:induction false} WrittenFormatsParse(fmt: seq<char>, i: nat, ds: seq<Directive>)
    requires i <= |fmt| && SpellsAll(fmt, i, ds)
    ensures Parse(fmt, i) == ds
    decreases |ds|
  {
    if ds != [] {
      DirectiveRead(fmt, i, ds[0]);
      ParseStep(fmt, i, Some(ds[0]), EndOf(ds[0], i));
      WrittenFormatsParse(fmt, EndOf(ds[0], i), ds[1..]);
    }
  }

  // ---------------------------------------------------------------------------------------------
  // What the C standard asks for, letter by letter (section 7.21.6.1 of ISO/IEC 9899:2011)
  // ---------------------------------------------------------------------------------------------

  // How many values an argument of a length can have.
  function Range(conv: char, length: Length): nat
  {
    if conv == 'p' then 0x1_0000_0000
    else
      match length
      case AsChar => 0x100
      case AsShort => 0x1_0000
      case AsLLong => 0x1_0000_0000_0000_0000
      case _ => 0x1_0000_0000
  }

  // The value of an argument, given as any integer that stands for it.
  predicate Stands(conv: char, length: Length, num: int, value: int)
  {
    var range := Range(conv, length);
    && (num - value) % range == 0
    && if conv in {'d', 'i'} then -(range / 2) <= value < range / 2 else 0 <= value < range
  }

  function BaseOf(conv: char): nat
  {
    match conv
    case 'o' => 8
    case 'x' => 16
    case 'X' => 16
    case 'p' => 16
    case 'b' => 2
    case 'B' => 2
    case _ => 10
  }

  // The sign of a signed conversion.
  function SignOf(conv: char, flags: Flags, value: int): seq<char>
  {
    if conv !in {'d', 'i'} then ""
    else if value < 0 then "-"
    else if flags.plus then "+"
    else if flags.space then " "
    else ""
  }

  // The base # writes before a value that is not 0, and a pointer always has.
  function PrefixOf(conv: char, flags: Flags, value: int): seq<char>
  {
    match conv
    case 'p' => "0x"
    case 'x' => if flags.alt && value != 0 then "0x" else ""
    case 'X' => if flags.alt && value != 0 then "0X" else ""
    case 'b' => if flags.alt && value != 0 then "0b" else ""
    case 'B' => if flags.alt && value != 0 then "0B" else ""
    case _ => ""
  }

  // At least as many digits as the precision, which for 0 may be none, and # makes an octal number
  // begin with 0.
  function DigitsFor(conv: char, head: Head, size: nat): seq<char>
  {
    var natural := if size == 0 && head.precision == 0 then "" else NumberText(size, BaseOf(conv), conv in {'X', 'B'});
    var digits := AtLeast(natural, head.precision);
    if conv == 'o' && head.flags.alt && (digits == [] || digits[0] != '0') then ['0'] + digits else digits
  }

  function FieldFor(conv: char, head: Head, value: int): seq<char>
  {
    var lead := SignOf(conv, head.flags, value) + PrefixOf(conv, head.flags, value);
    var digits := DigitsFor(conv, head, Magnitude(value));
    var missing := head.width - |lead| - |digits|;
    if head.flags.left then lead + digits + Repeat(' ', missing)
    else if head.flags.zero && head.precision < 0 then lead + AtLeast(digits, head.width - |lead|)
    else Repeat(' ', missing) + lead + digits
  }

  // The zero-filled # octal of a value wider than its digits.
  predicate LosesZeros(conv: char, head: Head, value: int)
  {
    && conv == 'o' && head.flags.alt && head.flags.zero && !head.flags.left && head.precision < 0
    && value > 0 && head.width > |NumberText(value, 8, false)| + 1
  }

  lemma Residue(num: int, value: int, range: nat)
    requires range > 0 && (num - value) % range == 0 && 0 <= value + range && value < range
    ensures value < 0 ==> num % range == value + range
    ensures value >= 0 ==> num % range == value
  {
    var low: int := if value < 0 then value + range else value;
    var q := (num - value) / range;
    MulSuccessor(q - 1, range);
    assert num - value == q * range;
    IntModIs(num, range, if value < 0 then q - 1 else q, low);
  }

  lemma IntModIs(x: int, p: int, k: int, low: int)
    requires p > 0 && x == k * p + low && 0 <= low < p
    ensures x % p == low
  {
    var d := x / p - k;
    assert x == p * (x / p) + x % p;
    assert p * (x / p) == p * d + k * p by { assert x / p == d + k; }
    assert p * d == low - x % p;
    MulAtLeast(p, d);
  }

  lemma ArgumentTaken(conv: char, head: Head, num: int, value: int)
    requires IsNumber(conv) && Stands(conv, head.length, num, value)
    ensures NumberFor(conv, head, num).value == Magnitude(value) && NumberFor(conv, head, num).base == BaseOf(conv)
    ensures NumberFor(conv, head, num).negative <==> value < 0
    ensures NumberFor(conv, head, num).upper <==> conv in {'X', 'B'}
  {
    Residue(num, value, Range(conv, head.length));
  }

  lemma LeadFor(conv: char, head: Head, num: int, value: int)
    requires IsNumber(conv) && Stands(conv, head.length, num, value) && !head.flags.ptr
    ensures Sign(NumberFor(conv, head, num)) == SignOf(conv, head.flags, value)
    ensures Prefix(NumberFor(conv, head, num)) == PrefixOf(conv, head.flags, value)
  {
    ArgumentTaken(conv, head, num, value);
  }

  lemma DigitsLaid(conv: char, head: Head, num: int, value: int)
    requires IsNumber(conv) && Stands(conv, head.length, num, value)
    ensures Body(NumberFor(conv, head, num)) == DigitsFor(conv, head, Magnitude(value))
  {
    ArgumentTaken(conv, head, num, value);
    NumberDecodes(Magnitude(value), BaseOf(conv), conv in {'X', 'B'});
  }

  lemma FieldIsLaid(conv: char, head: Head, num: int, value: int)
    requires IsNumber(conv) && Stands(conv, head.length, num, value) && !head.flags.ptr
    ensures Standard(NumberFor(conv, head, num)) == FieldFor(conv, head, value)
  {
    var n := NumberFor(conv, head, num);
    var lead := SignOf(conv, head.flags, value) + PrefixOf(conv, head.flags, value);
    ArgumentTaken(conv, head, num, value);
    LeadFor(conv, head, num, value);
    LeadIsStandard(n);
    DigitsLaid(conv, head, num, value);
    assert StandardLead(n) == lead && n.width == head.width && n.precision == head.precision;
    assert n.flags.left == head.flags.left && n.flags.zero == head.flags.zero;
  }

  lemma ZerosLost(conv: char, head: Head, num: int, value: int)
    requires IsNumber(conv) && Stands(conv, head.length, num, value) && !head.flags.ptr
    ensures LosesZeroFill(NumberFor(conv, head, num)) <==> LosesZeros(conv, head, value)
  {
    ArgumentTaken(conv, head, num, value);
    LeadFor(conv, head, num, value);
  }

  // Every conversion of a number prints, for every argument, the field the standard describes for
  // its letter, with the one exception.
  lemma NumbersPrintStandard(conv: char, head: Head, arg: Arg, value: int)
    requires IsNumber(conv) && Stands(conv, head.length, arg.num, value) && !head.flags.ptr
    ensures Printed(conv, head, arg) == FieldFor(conv, head, value) <==> !LosesZeros(conv, head, value)
  {
    FieldIsLaid(conv, head, arg.num, value);
    ZerosLost(conv, head, arg.num, value);
    PrintsStandard(NumberFor(conv, head, arg.num));
  }

  // And it reads back: spaces, the sign, the base's prefix, digits that decode in the letter's base
  // to the argument, and spaces.
  lemma NumberConversionReadsBack(conv: char, head: Head, arg: Arg, value: int)
    returns (before: nat, body: seq<char>, after: nat)
    requires conv in {'d', 'i', 'u', 'o', 'x', 'X', 'b', 'B', 'p'} && !head.flags.ptr
    requires Stands(conv, head.length, arg.num, value)
    ensures Printed(conv, head, arg)
         == Repeat(' ', before) + SignOf(conv, head.flags, value) + PrefixOf(conv, head.flags, value)
            + body + Repeat(' ', after)
    ensures Decode(body, BaseOf(conv)) == (if value < 0 then -value else value)
    ensures Cased(body, conv in {'X', 'B'}) && (body == [] ==> value == 0)
    ensures if head.flags.left then before == 0 else after == 0
  {
    ArgumentTaken(conv, head, arg.num, value);
    LeadFor(conv, head, arg.num, value);
    before, body, after := NumberReadsBack(NumberFor(conv, head, arg.num));
  }

  // A width or precision given as * is its argument, as a 32-bit int.
  lemma StarArgument(args: nat -> Arg, k: nat)
    ensures Stands('d', AsInt, args(k).num, IntArg(args, k))
  {
    var num, low := args(k).num, args(k).num % WORD;
    var q := (num - low) / WORD;
    assert num - low == q * WORD;
    IntModIs(num - IntArg(args, k), WORD, if low < WORD / 2 then q else q + 1, 0);
  }

  lemma OneMeans(d: Directive, args: nat -> Arg)
    ensures Means([d], args) == Show(PieceOf(d, args, 0)) && UsesAll([d]) == Uses(d)
  {
    assert [] + [d] == [d];
    OneMore([], d, args);
    NothingBefore(Show(PieceOf(d, args, 0)));
  }

  lemma NothingBefore(text: seq<char>)
    ensures [] + text == text
  {
  }

  lemma TwoMean(first: Directive, second: Directive, args: nat -> Arg)
    ensures Means([first, second], args) == Means([first], args) + Show(PieceOf(second, args, UsesAll([first])))
  {
    OneMore([first], second, args);
    assert [first] + [second] == [first, second];
  }

  // The arguments a conversion takes: one for each * and one to print, which a % and a letter that
  // is not recognised do without, and one that is not supported does not.
  function Taken(d: Directive): nat
    requires d.Conversion?
  {
    (if d.width == Star then 1 else 0) + (if d.precision == Star then 1 else 0)
    + match d.conv
      case 'd' | 'i' | 'u' | 'o' | 'x' | 'X' | 'b' | 'B' | 'p' | 'c' | 's' => 1
      case 'f' | 'F' | 'e' | 'E' | 'g' | 'G' | 'a' | 'A' | 'n' => 1
      case _ => 0
  }

  lemma UsesTaken(d: Directive)
    requires d.Conversion?
    ensures Uses(d) == Taken(d)
  {
  }

  lemma ConversionShows(d: Directive, args: nat -> Arg, k: nat)
    requires d.Conversion? && !d.width.Star? && !d.precision.Star?
    ensures Show(PieceOf(d, args, k)) == Printed(d.conv, HeadOf(d, args, k), args(k))
  {
  }

  // Conversions stay in step: each finds the argument after those the one before it took, supported
  // or not.
  lemma StaysInStep(first: Directive, next: Directive, args: nat -> Arg)
    requires first.Conversion? && next.Conversion? && !next.width.Star? && !next.precision.Star?
    ensures Means([first, next], args)
         == Means([first], args) + Printed(next.conv, HeadOf(next, args, Taken(first)), args(Taken(first)))
  {
    OneMeans(first, args);
    UsesTaken(first);
    ConversionShows(next, args, Taken(first));
    TwoMean(first, next, args);
  }

  // %x of 255 prints ff, and %o of it 377.
  lemma HexAndOctal(head: Head)
    requires head == Head(NO_FLAGS, 0, -1, AsInt)
    ensures Printed('x', head, Arg(255, None)) == "ff"
    ensures Printed('o', head, Arg(255, None)) == "377"
  {
    NumbersPrintStandard('x', head, Arg(255, None), 255);
    NumbersPrintStandard('o', head, Arg(255, None), 255);
    DigitsOf255();
  }

  lemma DigitsOf255()
    ensures NumberText(255, 16, false) == "ff" && NumberText(255, 8, false) == "377"
  {
    SignificantGrows(255, 16, false);
    SignificantGrows(15, 16, false);
    SignificantGrows(255, 8, false);
    SignificantGrows(31, 8, false);
    SignificantGrows(3, 8, false);
  }

  // A %d prints its argument, as its length takes it: the sign says whether it is negative, and the
  // digits decode to its size.
  lemma SignedReadsBack(head: Head, num: int) returns (before: nat, body: seq<char>, after: nat)
    ensures var n := NumberFor('d', head, num);
      && Rendered(n) == Repeat(' ', before) + Sign(n) + body + Repeat(' ', after)
      && (Sign(n) == ['-'] <==> Signed(num, head.length) < 0)
      && Decode(body, 10) == Magnitude(Signed(num, head.length))
  {
    var n := NumberFor('d', head, num);
    before, body, after := NumberReadsBack(n);
    assert Prefix(n) == [];
    assert Repeat(' ', before) + Sign(n) + [] == Repeat(' ', before) + Sign(n);
  }
}

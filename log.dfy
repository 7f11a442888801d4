/**
 * The printf-style logger of lib/services/log/log.c.
 *
 * LogPrint walks its format string: ordinary characters go out as they
 * are; '%' introduces a conversion (%d and %u in decimal, %x in hex, %s a
 * string after the current level's prefix, %c a character, %% a percent
 * sign, % followed by CR or LF a CR LF pair, anything else '?'). Nothing
 * is emitted at LOG_LEVEL_NONE. The bytes handed to UartServiceSend are
 * modelled as one growing sequence of characters.
 *
 * The format string and the arguments are those of a well-defined call:
 * no lone '%' at the end of the format, each conversion's argument of the
 * right kind, and no %d of INT32_MIN (or %u of 2^31), whose negation
 * overflows.
 */
module Log {
  import opened Arith

  /** LOG_LEVEL, in the order of the PREFIXES table. */
  datatype Level = Debug | Info | Warn | Error | None

  /** PREFIXES. */
  function Prefix(l: Level): string
  {
    match l
    case Debug => "[DBG]: "
    case Info => "[INFO]:"
    case Warn => "[WARN]: "
    case Error => "[ERR]: "
    case None => ""
  }

  /** A variadic argument as va_arg reads it. */
  datatype Arg = I(i: int) | U(u: nat) | S(s: string) | C(c: int)

  const INT32_MIN: int := -0x8000_0000
  const U32_LIMIT: nat := 0x1_0000_0000

  /** The argument a conversion reads fits it and its printing is defined. */
  predicate ArgFits(conv: char, a: Arg)
  {
    match conv
    case 'd' => a.I? && INT32_MIN < a.i < -INT32_MIN
    case 'u' => a.U? && a.u < U32_LIMIT && a.u != -INT32_MIN
    case 'x' => a.U? && a.u < U32_LIMIT
    case 's' => a.S?
    case 'c' => a.C?
    case _ => false
  }

  /** The conversions that read an argument. */
  predicate Reads(conv: char)
  {
    conv == 'd' || conv == 'u' || conv == 'x' || conv == 's' || conv == 'c'
  }

  /**
   * From position j of the format on, with the arguments from k on: no
   * terminator inside the string, no lone '%' at its end, and an argument
   * of the right kind for each conversion that reads one.
   */
  predicate Fits(fmt: string, j: nat, args: seq<Arg>, k: nat)
    decreases |fmt| - j
  {
    if j >= |fmt| then true
    else if fmt[j] == '\0' then false
    else if fmt[j] != '%' then Fits(fmt, j + 1, args, k)
    else if j + 1 >= |fmt| || fmt[j + 1] == '\0' then false
    else if Reads(fmt[j + 1]) then k < |args| && ArgFits(fmt[j + 1], args[k]) && Fits(fmt, j + 2, args, k + 1)
    else Fits(fmt, j + 2, args, k)
  }

  /** strlen: the characters before the first NUL. */
  function StrLen(s: string): (n: nat)
    ensures n <= |s| && (forall i :: 0 <= i < n ==> s[i] != '\0') && (n < |s| ==> s[n] == '\0')
  {
    if s == [] || s[0] == '\0' then 0 else 1 + StrLen(s[1..])
  }

  /** PrintMessage: the current prefix when there is one, then the string, its length taken as a uint8_t. */
  function Message(level: Level, s: string): string
  {
    Prefix(level) + s[..StrLen(s) % 256]
  }

  /** A hex digit's value. */
  type Nibble = d: nat | d < 16

  /** HEX[d], the table "0123456789ABCDEF" in PrintHex. */
  function HexChar(d: Nibble): char
  {
    if d < 10 then ('0' as int + d) as char else ('A' as int + d - 10) as char
  }

  /** '0' + d, a decimal digit as PrintDec stores it. */
  function DecChar(d: nat): char
    requires d < 10
  {
    ('0' as int + d) as char
  }

  /** The decimal digits of n, most significant first, "0" for 0. */
  function Digits(n: nat): (s: string)
    ensures |s| >= 1
  {
    (if n < 10 then [] else Digits(n / 10)) + [DecChar(n % 10)]
  }

  /** PrintDec: a minus sign for a negative value, then the digits of its magnitude. */
  function Dec(v: int): string
  {
    (if v < 0 then "-" else "") + Digits(if v < 0 then -v else v)
  }

  /** The (int32_t) cast %u applies. */
  function ToInt32(u: nat): int
    requires u < U32_LIMIT
  {
    if u < -INT32_MIN then u else u - U32_LIMIT
  }

  function Pow16(k: nat): (p: nat)
    ensures p >= 1
  {
    if k == 0 then 1 else 16 * Pow16(k - 1)
  }

  /** The low n nibbles of v, most significant first. */
  function Nibbles(v: nat, n: nat): (ds: seq<Nibble>)
    ensures |ds| == n
  {
    if n == 0 then [] else Nibbles(v / 16, n - 1) + [v % 16]
  }

  /** The nibbles after the leading zeros. */
  function DropZeros(ds: seq<Nibble>): (r: seq<Nibble>)
    ensures |r| <= |ds|
  {
    if ds == [] || ds[0] != 0 then ds else DropZeros(ds[1..])
  }

  function HexChars(ds: seq<Nibble>): (s: string)
    ensures |s| == |ds|
  {
    if ds == [] then [] else [HexChar(ds[0])] + HexChars(ds[1..])
  }

  /** The nibbles that are not 0, each as its digit. */
  function NonZeroChars(ds: seq<Nibble>): string
  {
    if ds == [] then [] else (if ds[0] != 0 then [HexChar(ds[0])] else []) + NonZeroChars(ds[1..])
  }

  /** `char ch = va_arg(args, int)`: the int argument narrowed to a char, its low 8 bits. */
  function ByteChar(x: int): (c: char)
    ensures c as int < 256 && (c as int - x) % 256 == 0
    ensures 0 <= x < 256 ==> c as int == x
  {
    (x % 256) as char
  }

  /** PrintHex as written: "0x", "00" for 0, then every nibble that is not 0, high to low. */
  function HexAsWritten(v: nat): string
  {
    "0x" + (if v == 0 then "00" else "") + NonZeroChars(Nibbles(v, 8))
  }

  /** PrintHex as intended: "0x", "00" for 0, then the nibbles from the first that is not 0. */
  function Hex(v: nat): string
  {
    "0x" + (if v == 0 then "00" else "") + HexChars(DropZeros(Nibbles(v, 8)))
  }

  /** A string shorter than 256 characters without a NUL is printed whole after the prefix. */
  lemma MessageWhole(level: Level, s: string)
    requires '\0' !in s && |s| < 256
    ensures Message(level, s) == Prefix(level) + s
  {
    StrLenAll(s);
    var n := StrLen(s);
    assert n % 256 == n;
    assert s[..n] == s;
  }

  /** What one format item prints, and where the format and the arguments continue. */
  function Item(level: Level, fmt: string, j: nat, args: seq<Arg>, k: nat): (r: (string, nat, nat))
    requires j < |fmt| && Fits(fmt, j, args, k)
    ensures j < r.1 <= |fmt| && k <= r.2 <= k + 1 && Fits(fmt, r.1, args, r.2)
  {
    if fmt[j] != '%' then ([fmt[j]], j + 1, k)
    else
      var c := fmt[j + 1];
      if Reads(c) then
        var a := args[k];
        var text :=
          if c == 'd' then Dec(a.i)
          else if c == 'u' then Dec(ToInt32(a.u))
          else if c == 'x' then Hex(a.u)
          else if c == 's' then Message(level, a.s)
          else [ByteChar(a.c)];
        (text, j + 2, k + 1)
      else if c == '%' then ("%", j + 2, k)
      else if c == '\r' || c == '\n' then ("\r\n", j + 2, k)
      else ("?", j + 2, k)
  }

  /** %s prints the current level's prefix and then the string, and reads one argument. */
  lemma ItemString(level: Level, fmt: string, j: nat, args: seq<Arg>, k: nat)
    requires j + 1 < |fmt| && fmt[j] == '%' && fmt[j + 1] == 's' && Fits(fmt, j, args, k)
    ensures Item(level, fmt, j, args, k) == (Message(level, args[k].s), j + 2, k + 1)
  {
  }

  /** What the rest of the format prints from position j, with the arguments from k. */
  function RenderFrom(level: Level, fmt: string, j: nat, args: seq<Arg>, k: nat): string
    requires j <= |fmt| && Fits(fmt, j, args, k)
    decreases |fmt| - j
  {
    if j == |fmt| then []
    else
      var it := Item(level, fmt, j, args, k);
      it.0 + RenderFrom(level, fmt, it.1, args, it.2)
  }

  /** A character other than '%' is printed as it is and reads no argument. */
  lemma RenderChar(level: Level, fmt: string, j: nat, args: seq<Arg>, k: nat)
    requires j < |fmt| && fmt[j] != '%' && fmt[j] != '\0' && Fits(fmt, j + 1, args, k)
    ensures Fits(fmt, j, args, k)
    ensures RenderFrom(level, fmt, j, args, k) == [fmt[j]] + RenderFrom(level, fmt, j + 1, args, k)
  {
    assert Item(level, fmt, j, args, k) == ([fmt[j]], j + 1, k);
  }

  /** What LogPrint(fmt, args...) emits at `level`. */
  function Render(level: Level, fmt: string, args: seq<Arg>): string
    requires Fits(fmt, 0, args, 0)
  {
    if level == None then [] else RenderFrom(level, fmt, 0, args, 0)
  }

  /** A format without conversions is printed exactly as written. */
  lemma {:induction false} Verbatim(level: Level, fmt: string, j: nat, args: seq<Arg>, k: nat)
    requires j <= |fmt| && Fits(fmt, j, args, k)
    requires forall i :: j <= i < |fmt| ==> fmt[i] != '%'
    ensures RenderFrom(level, fmt, j, args, k) == fmt[j..]
    decreases |fmt| - j
  {
    if j < |fmt| {
      Verbatim(level, fmt, j + 1, args, k);
      assert fmt[j..] == [fmt[j]] + fmt[j + 1..];
    }
  }

  /** A two-character escape: %% gives '%', % CR and % LF give CR LF, an unknown conversion '?'. */
  lemma Escape(level: Level, c: char)
    requires level != None && !Reads(c) && c != '\0'
    ensures Render(level, ['%', c], []) ==
      if c == '%' then "%" else if c == '\r' || c == '\n' then "\r\n" else "?"
  {
    assert Fits(['%', c], 2, [], 0);
    assert RenderFrom(level, ['%', c], 2, [], 0) == [];
  }

  /** %c prints the low 8 bits of its int argument as one character. */
  lemma CharNarrowed(level: Level, x: int)
    requires level != None
    ensures Render(level, "%c", [C(x)]) == [ByteChar(x)]
    ensures Render(level, "%c", [C(x + 256)]) == Render(level, "%c", [C(x)])
  {
    assert Fits("%c", 2, [C(x)], 1) && Fits("%c", 2, [C(x + 256)], 1);
    RenderStep(level, "%c", 0, [C(x)], 0);
    RenderStep(level, "%c", 0, [C(x + 256)], 0);
  }

  /** %s prints the current level's prefix and then the string. */
  lemma StringGetsPrefix(level: Level, s: string)
    requires level != None && '\0' !in s && |s| < 256
    ensures Render(level, "%s", [S(s)]) == Prefix(level) + s
  {
    assert Fits("%s", 2, [S(s)], 1);
    assert StrLen(s) == |s| by { StrLenAll(s); }
  }

  lemma {:induction false} StrLenAll(s: string)
    requires '\0' !in s
    ensures StrLen(s) == |s|
  {
    if s != [] {
      assert s[0] in s;
      assert forall c :: c in s[1..] ==> c in s;
      StrLenAll(s[1..]);
    }
  }

  /** %u goes through an int32_t cast: 0xFFFFFFFF prints as "-1". */
  lemma UnsignedAsSigned(level: Level)
    requires level != None
    ensures Render(level, "%u", [U(0xFFFF_FFFF)]) == "-1"
  {
    assert Fits("%u", 2, [U(0xFFFF_FFFF)], 1);
    assert Digits(1) == "1";
  }

  /** The value of decimal digits, most significant first. */
  function DecValue(s: string): int
  {
    if s == [] then 0 else DecValue(s[..|s| - 1]) * 10 + (s[|s| - 1] as int - '0' as int)
  }

  /** Decimal printing is exact: the digits read back as the number. */
  lemma {:induction false} DigitsRoundTrip(n: nat)
    ensures DecValue(Digits(n)) == n
    decreases n
  {
    var s := Digits(n);
    assert s[..|s| - 1] == if n < 10 then [] else Digits(n / 10);
    if n >= 10 {
      DigitsRoundTrip(n / 10);
    }
  }

  /** Every character PrintDec sends for a magnitude is a digit, and only 0 starts with '0'. */
  lemma {:induction false} DigitsCanonical(n: nat)
    ensures forall i :: 0 <= i < |Digits(n)| ==> '0' <= Digits(n)[i] <= '9'
    ensures Digits(n)[0] == '0' <==> n == 0
    decreases n
  {
    if n >= 10 {
      DigitsCanonical(n / 10);
      assert Digits(n)[0] == Digits(n / 10)[0];
    }
  }

  /** PrintDec puts a '-' in front exactly of negative values, and the rest reads back as the magnitude. */
  lemma DecSign(v: int)
    ensures (Dec(v)[0] == '-') <==> v < 0
    ensures Dec(v)[(if v < 0 then 1 else 0)..] == Digits(if v < 0 then -v else v)
  {
    var m := if v < 0 then -v else v;
    DigitsCanonical(m);
    assert Digits(m)[0] != '-';
  }

  /** The value of hex digits, high first. */
  function HexValue(ds: seq<Nibble>): nat
  {
    if ds == [] then 0 else HexValue(ds[..|ds| - 1]) * 16 + ds[|ds| - 1]
  }

  lemma {:induction false} NibblesValue(v: nat, n: nat)
    ensures HexValue(Nibbles(v, n)) == v % Pow16(n)
    decreases n
  {
    if n > 0 {
      var ds := Nibbles(v, n);
      assert ds[..n - 1] == Nibbles(v / 16, n - 1);
      NibblesValue(v / 16, n - 1);
      ModNext(v, Pow16(n - 1));
    }
  }

  /** (v / 16) % p * 16 + v % 16 == v % (16 p). */
  lemma ModNext(v: nat, p: nat)
    requires p >= 1
    ensures ((v / 16) % p) * 16 + v % 16 == v % (16 * p)
  {
    var q := v / 16;
    var a := q / p;
    var b := q % p;
    assert v == (a * p + b) * 16 + v % 16;
    assert v == a * (16 * p) + (b * 16 + v % 16);
    assert b * 16 + v % 16 < 16 * p;
    DivUnique(v, 16 * p, a, b * 16 + v % 16);
  }

  lemma {:induction false} DropZerosValue(ds: seq<Nibble>)
    ensures HexValue(DropZeros(ds)) == HexValue(ds)
    decreases |ds|
  {
    if ds != [] && ds[0] == 0 {
      DropZerosValue(ds[1..]);
      LeadingZero(ds[1..]);
      assert [0] + ds[1..] == ds;
    }
  }

  lemma {:induction false} LeadingZero(ds: seq<Nibble>)
    ensures HexValue([0] + ds) == HexValue(ds)
    decreases |ds|
  {
    if ds != [] {
      var e := [0] + ds;
      assert e[..|e| - 1] == [0] + ds[..|ds| - 1];
      LeadingZero(ds[..|ds| - 1]);
    }
  }

  /** The nibble value of a hex digit. */
  function HexDigitValue(c: char): nat
  {
    if '0' <= c <= '9' then c as int - '0' as int
    else if 'A' <= c <= 'F' then c as int - 'A' as int + 10
    else 0
  }

  lemma {:induction false} HexCharsBack(ds: seq<Nibble>)
    ensures |HexChars(ds)| == |ds| && forall i :: 0 <= i < |ds| ==> HexDigitValue(HexChars(ds)[i]) == ds[i]
    decreases |ds|
  {
    if ds != [] {
      HexCharsBack(ds[1..]);
      assert forall i :: 1 <= i < |ds| ==> HexChars(ds)[i] == HexChars(ds[1..])[i - 1];
      assert HexDigitValue(HexChar(ds[0])) == ds[0] by { HexCharValue(ds[0]); }
    }
  }

  lemma HexCharValue(d: Nibble)
    ensures HexDigitValue(HexChar(d)) == d
  {
  }

  /** The value of hex digits, high first. */
  function ParseHex(s: string): nat
  {
    if s == [] then 0 else ParseHex(s[..|s| - 1]) * 16 + HexDigitValue(s[|s| - 1])
  }

  lemma {:induction false} ParseHexChars(ds: seq<Nibble>)
    ensures ParseHex(HexChars(ds)) == HexValue(ds)
    decreases |ds|
  {
    if ds != [] {
      var init := ds[..|ds| - 1];
      assert ds == init + [ds[|ds| - 1]];
      HexCharsSnoc(init, ds[|ds| - 1]);
      ParseHexChars(init);
      HexCharValue(ds[|ds| - 1]);
      assert HexChars(ds)[..|ds| - 1] == HexChars(init);
    }
  }

  /**
   * The intended hex output is exact: "0x", then digits that read back as
   * the 32-bit value ("00" for 0).
   */
  lemma HexRoundTrip(v: nat)
    requires v < U32_LIMIT
    ensures Hex(v)[..2] == "0x" && ParseHex(Hex(v)[2..]) == v
  {
    var ns := Nibbles(v, 8);
    var ds := DropZeros(ns);
    var t := Hex(v)[2..];
    ParseHexChars(ds);
    DropZerosValue(ns);
    NibblesValue(v, 8);
    assert Pow16(8) == U32_LIMIT;
    ModSmall(v, U32_LIMIT);
    assert HexValue(ds) == v;
    if v == 0 {
      ZeroValueDrops(ns);
      assert t == "00";
      assert "00"[..1] == "0" && "0"[..0] == "";
    } else {
      assert t == HexChars(ds);
    }
  }

  /** Digits worth 0 are all zeros, and DropZeros leaves nothing of them. */
  lemma {:induction false} ZeroValueDrops(ds: seq<Nibble>)
    requires HexValue(ds) == 0
    ensures DropZeros(ds) == []
    decreases |ds|
  {
    if ds != [] {
      var init := ds[..|ds| - 1];
      assert HexValue(init) == 0 && ds[|ds| - 1] == 0;
      ZeroValueDrops(init);
      DropZerosSnoc(init, 0);
      assert init + [0] == ds;
    }
  }

  /** As written, PrintHex drops every '0' digit, so 0x10 and 0x1 both print as "0x1". */
  lemma HexAsWrittenCollides()
    ensures HexAsWritten(0x10) == HexAsWritten(0x1) == "0x1"
  {
    var z := SmallNibbles();
    ZeroChars(z, [1, 0]);
    ZeroChars(z, [0, 1]);
    assert NonZeroChars([1, 0]) == "1";
    assert NonZeroChars([0, 1]) == "1";
  }

  /** The intended output keeps the inner zero: 0x10 prints as "0x10", 0x1 as "0x1". */
  lemma HexKeepsInnerZero()
    ensures Hex(0x10) == "0x10" && Hex(0x1) == "0x1"
  {
    var z := SmallNibbles();
    ZeroDrops(z, [1, 0]);
    ZeroDrops(z, [0, 1]);
    var ten, one := DropZeros([1, 0]), DropZeros([0, 1]);
    assert ten == [1, 0];
    assert one == [1] by { assert [0, 1][1..] == [1]; }
    assert HexChars(ten) == "10" by { assert ten[1..] == [0]; }
    assert HexChars(one) == "1";
  }

  /** The eight nibbles of 0x10 and of 0x1: six zeros, then [1, 0] and [0, 1]. */
  lemma SmallNibbles() returns (z: seq<Nibble>)
    ensures |z| == 6 && forall i :: 0 <= i < 6 ==> z[i] == 0
    ensures Nibbles(0x10, 8) == z + [1, 0] && Nibbles(0x1, 8) == z + [0, 1]
  {
    z := [0, 0, 0, 0, 0, 0];
    ZeroNibbles(6);
    assert Nibbles(1, 7) == z + [1];
    assert Nibbles(0, 7) == z + [0];
  }

  lemma ZeroNibbles(n: nat)
    ensures Nibbles(0, n) == seq(n, _ => 0)
  {
    if n > 0 {
      ZeroNibbles(n - 1);
      assert seq(n, _ => 0) == seq(n - 1, _ => 0) + [0];
    }
  }

  lemma {:induction false} ZeroChars(z: seq<Nibble>, ds: seq<Nibble>)
    requires forall i :: 0 <= i < |z| ==> z[i] == 0
    ensures NonZeroChars(z + ds) == NonZeroChars(ds)
    decreases |z|
  {
    if z != [] {
      var e := z + ds;
      assert e != [] && e[0] == 0 && e[1..] == z[1..] + ds;
      ZeroChars(z[1..], ds);
      assert NonZeroChars(e) == [] + NonZeroChars(e[1..]);
    } else {
      assert z + ds == ds;
    }
  }

  lemma {:induction false} ZeroDrops(z: seq<Nibble>, ds: seq<Nibble>)
    requires forall i :: 0 <= i < |z| ==> z[i] == 0
    ensures DropZeros(z + ds) == DropZeros(ds)
    decreases |z|
  {
    if z != [] {
      var e := z + ds;
      assert e != [] && e[0] == 0 && e[1..] == z[1..] + ds;
      ZeroDrops(z[1..], ds);
    } else {
      assert z + ds == ds;
    }
  }

  /** The low n nibbles of v, seen through the shift the loop uses: nibble k is (v / 16^k) % 16. */
  lemma {:induction false} NibbleAt(v: nat, n: nat, k: nat)
    requires k < n
    ensures Nibbles(v, n)[n - 1 - k] == (v / Pow16(k)) % 16
    decreases n
  {
    if k > 0 {
      NibbleAt(v / 16, n - 1, k - 1);
      DivDiv(v, 16, Pow16(k - 1));
    }
  }

  lemma {:induction false} DropZerosSnoc(ds: seq<Nibble>, d: Nibble)
    ensures DropZeros(ds + [d]) == if DropZeros(ds) == [] && d == 0 then [] else DropZeros(ds) + [d]
    decreases |ds|
  {
    if ds != [] && ds[0] == 0 {
      assert (ds + [d])[1..] == ds[1..] + [d];
      DropZerosSnoc(ds[1..], d);
    }
  }

  lemma {:induction false} HexCharsSnoc(ds: seq<Nibble>, d: Nibble)
    ensures HexChars(ds + [d]) == HexChars(ds) + [HexChar(d)]
    decreases |ds|
  {
    if ds != [] {
      assert (ds + [d])[1..] == ds[1..] + [d];
      HexCharsSnoc(ds[1..], d);
    }
  }

  /**
   * PrintHex as written: its loop over the nibbles from bit 28 down to bit
   * 0 (k = i / 4) sends every digit that is not '0'.
   */
  method PrintHex(value: nat) returns (s: string)
    requires value < U32_LIMIT
    ensures s == HexAsWritten(value)
  {
    s := "0x";
    if value == 0 {
      s := s + "00";
    }
    ghost var s0 := s;
    ghost var ds := Nibbles(value, 8);
    var k := 8;
    while k > 0
      invariant k <= 8
      invariant s == s0 + NonZeroChars(ds[..8 - k])
    {
      k := k - 1;
      var index := (value / Pow16(k)) % 16;
      var symbol := HexChar(index);
      NibbleAt(value, 8, k);
      ghost var prev := ds[..7 - k];
      assert ds[..8 - k] == prev + [index];
      NonZeroCharsSnoc(prev, index);
      if symbol != '0' {
        Assoc(s0, NonZeroChars(prev), [symbol]);
        s := s + [symbol];
      }
    }
    assert ds[..8] == ds;
  }

  lemma {:induction false} NonZeroCharsSnoc(ds: seq<Nibble>, d: Nibble)
    ensures NonZeroChars(ds + [d]) == NonZeroChars(ds) + if HexChar(d) != '0' then [HexChar(d)] else []
    decreases |ds|
  {
    if ds != [] {
      assert (ds + [d])[1..] == ds[1..] + [d];
      NonZeroCharsSnoc(ds[1..], d);
    } else {
      assert NonZeroChars([d]) == (if d != 0 then [HexChar(d)] else []) + NonZeroChars([]);
    }
  }

  /** As written, no digit after "0x" of a value other than 0 is '0'. */
  lemma {:induction false} HexAsWrittenNoZero(v: nat)
    requires v != 0
    ensures forall i :: 2 <= i < |HexAsWritten(v)| ==> HexAsWritten(v)[i] != '0'
  {
    NonZeroCharsNoZero(Nibbles(v, 8));
    assert HexAsWritten(v)[2..] == NonZeroChars(Nibbles(v, 8));
    forall i | 2 <= i < |HexAsWritten(v)|
      ensures HexAsWritten(v)[i] != '0'
    {
      assert HexAsWritten(v)[i] == HexAsWritten(v)[2..][i - 2];
    }
  }

  lemma {:induction false} NonZeroCharsNoZero(ds: seq<Nibble>)
    ensures '0' !in NonZeroChars(ds)
    decreases |ds|
  {
    if ds != [] {
      NonZeroCharsNoZero(ds[1..]);
    }
  }

  /**
   * PrintHex as intended: the same loop, sending from the first nibble that
   * is not 0 on.
   */
  method PrintHexIntended(value: nat) returns (s: string)
    requires value < U32_LIMIT
    ensures s == Hex(value)
  {
    s := "0x";
    if value == 0 {
      s := s + "00";
    }
    ghost var s0 := s;
    ghost var ds := Nibbles(value, 8);
    var started := false;
    var k := 8;
    while k > 0
      invariant k <= 8
      invariant s == s0 + HexChars(DropZeros(ds[..8 - k]))
      invariant started <==> DropZeros(ds[..8 - k]) != []
    {
      k := k - 1;
      var index := (value / Pow16(k)) % 16;
      NibbleAt(value, 8, k);
      ghost var prev := ds[..7 - k];
      ghost var done := DropZeros(prev);
      assert ds[..8 - k] == prev + [index];
      DropZerosSnoc(prev, index);
      if index != 0 || started {
        HexCharsSnoc(done, index);
        Assoc(s0, HexChars(done), [HexChar(index)]);
        s := s + [HexChar(index)];
        started := true;
      }
    }
    assert ds[..8] == ds;
  }

  /** The characters of s in reverse order. */
  function Reversed(s: string): (r: string)
    ensures |r| == |s|
  {
    if s == [] then [] else Reversed(s[1..]) + [s[0]]
  }

  lemma {:induction false} DigitsBound(n: nat, bound: nat, len: nat)
    requires n < bound && bound == Pow10(len) && len >= 1
    ensures |Digits(n)| <= len
    decreases len
  {
    if n >= 10 {
      assert len >= 2;
      assert n / 10 < Pow10(len - 1);
      DigitsBound(n / 10, Pow10(len - 1), len - 1);
    }
  }

  function Pow10(k: nat): (p: nat)
    ensures p >= 1
  {
    if k == 0 then 1 else 10 * Pow10(k - 1)
  }

  /**
   * PrintDec: the sign, then the digits of the magnitude stored least
   * significant first in a 12-character buffer, then the buffer sent
   * backwards.
   */
  method PrintDec(value: int) returns (s: string)
    requires INT32_MIN < value < -INT32_MIN
    ensures s == Dec(value)
  {
    var buff := new char[12];
    var v: nat := if value < 0 then -value else value;
    var sign := if value < 0 then "-" else "";
    assert Pow10(10) == 10_000_000_000;
    DigitsBound(v, Pow10(10), 10);
    var i := StoreDigits(buff, v);
    var digits := SendBackwards(buff, i);
    s := sign + digits;
  }

  /** The do-while of PrintDec: buff[..i] holds the digits of v, least significant first. */
  method StoreDigits(buff: array<char>, v: nat) returns (i: nat)
    requires buff.Length == 12 && |Digits(v)| <= 10
    modifies buff
    ensures 1 <= i <= 12 && Reversed(buff[..i]) == Digits(v)
  {
    var rest := v;
    buff[0] := DecChar(rest % 10);
    LeadingStep(v);
    assert Reversed(buff[..1]) == [buff[0]] by { assert buff[..1][1..] == []; }
    rest := rest / 10;
    i := 1;
    while rest != 0 && i < 12
      invariant 1 <= i <= |Digits(v)|
      invariant Digits(v) == Leading(rest) + Reversed(buff[..i])
      decreases rest
    {
      var c := DecChar(rest % 10);
      ghost var stored := buff[..i];
      StoreStep(v, rest, stored);
      buff[i] := c;
      assert buff[..i + 1] == stored + [c];
      rest := rest / 10;
      i := i + 1;
    }
  }

  /** One turn of the do-while keeps the digits split between the value left and the buffer. */
  lemma StoreStep(v: nat, rest: nat, stored: string)
    requires rest != 0 && Digits(v) == Leading(rest) + Reversed(stored)
    ensures Digits(v) == Leading(rest / 10) + Reversed(stored + [DecChar(rest % 10)])
  {
    var c := DecChar(rest % 10);
    var lead, rev := Leading(rest / 10), Reversed(stored);
    LeadingStep(rest);
    ReversedSnoc(stored, c);
    Assoc(lead, [c], rev);
  }

  lemma Assoc(a: string, b: string, c: string)
    ensures (a + b) + c == a + (b + c)
  {
  }

  /** The digits still to be stored: none once the value is used up. */
  function Leading(n: nat): string
  {
    if n == 0 then [] else Digits(n)
  }

  lemma LeadingStep(n: nat)
    ensures n > 0 ==> Leading(n) == Leading(n / 10) + [DecChar(n % 10)]
    ensures n == 0 ==> Digits(n) == Leading(n / 10) + [DecChar(n % 10)]
  {
  }

  /** The while (i--) loop of PrintDec: buff[..i] sent from the last character to the first. */
  method SendBackwards(buff: array<char>, i: nat) returns (s: string)
    requires i <= buff.Length
    ensures s == Reversed(buff[..i])
  {
    s := [];
    var j := i;
    while j > 0
      invariant 0 <= j <= i
      invariant s == Reversed(buff[j..i])
    {
      j := j - 1;
      assert buff[j..i][1..] == buff[j + 1..i];
      s := s + [buff[j]];
    }
    assert buff[0..i] == buff[..i];
  }

  lemma {:induction false} ReversedSnoc(s: string, c: char)
    ensures Reversed(s + [c]) == [c] + Reversed(s)
    decreases |s|
  {
    if s != [] {
      assert (s + [c])[1..] == s[1..] + [c];
      ReversedSnoc(s[1..], c);
    } else {
      assert [] + [c] == [c];
    }
  }

  /** PrintMessage. */
  method PrintMessage(level: Level, message: string) returns (s: string)
    ensures s == Message(level, message)
  {
    var prefixLen := |Prefix(level)|;
    s := if prefixLen != 0 then Prefix(level) else [];
    var len := StrLen(message) % 256;
    s := s + message[..len];
  }

  /** One item of LogPrint's loop: a conversion after '%', or an ordinary character. */
  method PrintItem(level: Level, fmt: string, j: nat, args: seq<Arg>, k: nat) returns (text: string, j': nat, k': nat)
    requires j < |fmt| && Fits(fmt, j, args, k)
    ensures (text, j', k') == Item(level, fmt, j, args, k)
  {
    j', k' := j, k;
    if fmt[j'] == '%' {
      j' := j' + 1;
      match fmt[j']
      case 'd' =>
        text := PrintDec(args[k'].i);
        k' := k' + 1;
      case 'u' =>
        text := PrintDec(ToInt32(args[k'].u));
        k' := k' + 1;
      case 'x' =>
        text := PrintHexIntended(args[k'].u);
        k' := k' + 1;
      case 's' =>
        text := PrintMessage(level, args[k'].s);
        k' := k' + 1;
      case 'c' =>
        text := [ByteChar(args[k'].c)];
        k' := k' + 1;
      case '%' =>
        text := "%";
      case '\r' =>
        text := "\r\n";
      case '\n' =>
        text := "\r\n";
      case _ =>
        text := "?";
    } else {
      text := [fmt[j']];
    }
    j' := j' + 1;
  }

  /** The loop of LogPrint, from the start of the format. */
  method Format(level: Level, fmt: string, args: seq<Arg>) returns (s: string)
    requires Fits(fmt, 0, args, 0)
    ensures s == RenderFrom(level, fmt, 0, args, 0)
  {
    ghost var whole := RenderFrom(level, fmt, 0, args, 0);
    s := [];
    var j, k := 0, 0;
    while j < |fmt|
      invariant j <= |fmt| && Fits(fmt, j, args, k)
      invariant s + RenderFrom(level, fmt, j, args, k) == whole
      decreases |fmt| - j
    {
      ghost var before := RenderFrom(level, fmt, j, args, k);
      RenderStep(level, fmt, j, args, k);
      var text;
      text, j, k := PrintItem(level, fmt, j, args, k);
      ghost var rest := RenderFrom(level, fmt, j, args, k);
      assert before == text + rest;
      Assoc(s, text, rest);
      s := s + text;
    }
  }

  lemma RenderStep(level: Level, fmt: string, j: nat, args: seq<Arg>, k: nat)
    requires j < |fmt| && Fits(fmt, j, args, k)
    ensures var it := Item(level, fmt, j, args, k);
      RenderFrom(level, fmt, j, args, k) == it.0 + RenderFrom(level, fmt, it.1, args, it.2)
  {
  }

  /** The logger's state: m_logLevel and everything sent so far. */
  class Logger {
    var level: Level
    var out: seq<char>

    /** m_logLevel starts at LOG_LEVEL_DEBUG. */
    constructor ()
      ensures level == Debug && out == []
    {
      level := Debug;
      out := [];
    }

    /** LogLevel: any LOG_LEVEL below LOG_LEVEL_NUMBER is stored. */
    method SetLevel(l: Level)
      modifies this`level
      ensures level == l
    {
      level := l;
    }

    /** LogPrint: nothing at LOG_LEVEL_NONE, otherwise the rendered format. */
    method Print(fmt: string, args: seq<Arg>)
      requires Fits(fmt, 0, args, 0)
      modifies this`out
      ensures out == old(out) + Render(level, fmt, args)
      ensures level == None ==> out == old(out)
    {
      if level == None {
        return;
      }
      var s := Format(level, fmt, args);
      out := out + s;
    }
  }
}

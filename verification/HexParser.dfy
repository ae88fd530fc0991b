/** The stream parsers of hexadecimal payloads, and the printer they undo. */
module HexParser {
  import opened Common

  predicate IsBlank(c: char) {
    c == ' ' || '\t' <= c <= '\r'
  }

  predicate IsHexDigit(c: char) {
    '0' <= c <= '9' || 'A' <= c <= 'F' || 'a' <= c <= 'f'
  }

  function DigitValue(c: char): (d: nat)
    requires IsHexDigit(c)
    ensures d < 16
  {
    if '0' <= c <= '9' then c as int - '0' as int
    else if 'A' <= c <= 'F' then c as int - 'A' as int + 10
    else c as int - 'a' as int + 10
  }

  // ------------------------------------------------------------------- what is consumed

  /** What is left once n characters that are not blank have been consumed. */
  function After(s: string, n: int): string {
    if n <= 0 || s == [] then s
    else After(s[1..], if IsBlank(s[0]) then n else n - 1)
  }

  /** The characters, not blank, consumed on the way. */
  function Taken(s: string, n: int): string {
    if n <= 0 || s == [] then []
    else if IsBlank(s[0]) then Taken(s[1..], n)
    else [s[0]] + Taken(s[1..], n - 1)
  }

  /** The first n characters, or as many as there are, and what follows them. */
  function Upto(s: string, n: nat): (t: string)
    ensures |t| <= n && |t| <= |s| && forall i :: 0 <= i < |t| ==> t[i] == s[i]
  {
    if n <= |s| then s[..n] else s
  }

  function Beyond(s: string, n: nat): string {
    if n <= |s| then s[n..] else []
  }

  /** Only the low bits fit in a destination. */
  function Fit(v: nat, modulus: nat): nat
    requires modulus > 0
  {
    v % modulus
  }

  function Accumulate(v: nat, c: char, base: nat, modulus: nat): nat
    requires modulus > 0
  {
    if IsHexDigit(c) then Fit(v * base + DigitValue(c), modulus) else v
  }

  /** The number read from these characters, in a destination of the given width. */
  function Value(s: string, base: nat, modulus: nat): nat
    requires modulus > 0
  {
    if s == [] then 0 else Accumulate(Value(s[..|s| - 1], base, modulus), s[|s| - 1], base, modulus)
  }

  function Pow(b: nat, e: nat): (p: nat)
    ensures b > 0 ==> p > 0
  {
    if e == 0 then 1 else b * Pow(b, e - 1)
  }

  function PairDigit(v: nat, c: Option<char>, base: nat): nat {
    if c.Some? && !IsBlank(c.value) && IsHexDigit(c.value) then v * base + DigitValue(c.value) else v
  }

  function Blanks(c: Option<char>): nat {
    if c.Some? && IsBlank(c.value) then 1 else 0
  }

  function First(s: string): Option<char> {
    if s == [] then None else Some(s[0])
  }

  function Rest(s: string): string {
    if s == [] then [] else s[1..]
  }

  function LittleEndian(s: string, i: int, nbByte: nat, destination: nat, base: nat, modulus: nat): (nat, string)
    requires modulus > 0
    decreases |s|, i
  {
    if i <= 0 then (destination, s)
    else
      var c, d := First(s), First(Rest(s));
      var byte := PairDigit(PairDigit(0, c, base), d, base);
      LittleEndian(Rest(Rest(s)), i + Blanks(c) + Blanks(d) - 2, nbByte + 1,
                   Fit(destination + Scaled(byte, nbByte), modulus), base, modulus)
  }

  function Scaled(byte: nat, k: nat): nat {
    byte * Pow(256, k)
  }

  lemma LittleStep(s: string, i: int, k: nat, v: nat, base: nat, modulus: nat)
    requires modulus > 0
    ensures LittleEndian(s, i, k, v, base, modulus) ==
      if i <= 0 then (v, s)
      else
        var c, d := First(s), First(Rest(s));
        LittleEndian(Rest(Rest(s)), i + Blanks(c) + Blanks(d) - 2, k + 1,
                     Fit(v + Scaled(PairDigit(PairDigit(0, c, base), d, base), k), modulus), base, modulus)
  {
  }

  lemma PairShrinks(s: string)
    ensures |Rest(Rest(s))| < |s| || (s == Rest(Rest(s)) && Blanks(First(s)) == 0 && Blanks(First(Rest(s))) == 0)
  {
  }

  class InputStream {
    const text: string
    var position: nat

    predicate Valid()
      reads this
    {
      position <= |text|
    }

    ghost function Remaining(): string
      requires Valid()
      reads this
    {
      text[position..]
    }

    constructor (text: string)
      ensures Valid() && this.text == text && Remaining() == text
    {
      this.text := text;
      position := 0;
    }

    /** Ends the stream with None, again and again. */
    method Get() returns (c: Option<char>)
      requires Valid()
      modifies this
      ensures Valid()
      ensures c == First(old(Remaining())) && Remaining() == Rest(old(Remaining()))
    {
      if position == |text| {
        return None;
      }
      c := Some(text[position]);
      position := position + 1;
    }

    method Parse(length: int, base: nat, modulus: nat) returns (destination: nat)
      requires Valid() && modulus > 0
      modifies this
      ensures Valid() && Remaining() == After(old(Remaining()), length)
      ensures destination == Value(Taken(old(Remaining()), length), base, modulus)
    {
      hide Fit, IsHexDigit, DigitValue, IsBlank;
      destination := 0;
      var i := length;
      ghost var done: string := [];
      while i > 0
        invariant Valid()
        invariant After(Remaining(), i) == After(old(Remaining()), length)
        invariant done + Taken(Remaining(), i) == Taken(old(Remaining()), length)
        invariant destination == Value(done, base, modulus)
        decreases |text| - position, i
      {
        var c := Get();
        if c.Some? && IsBlank(c.value) {
          continue;
        }
        if c.Some? {
          if IsHexDigit(c.value) {
            destination := Fit(destination * base + DigitValue(c.value), modulus);
          }
          ghost var next := done + [c.value];
          assert next[..|done|] == done;
          done := next;
        }
        i := i - 1;
      }
      assert done == Taken(old(Remaining()), length);
    }

    /** Two characters at a time, the first pair being the least significant byte. A
        blank takes the place of a digit of its pair, and prolongs the loop by one. */
    method ParseLittleEndian(length: int, base: nat, modulus: nat) returns (destination: nat)
      requires Valid() && modulus > 0 && length % 2 == 0
      modifies this
      ensures Valid()
      ensures (destination, Remaining()) == LittleEndian(old(Remaining()), length, 0, 0, base, modulus)
    {
      hide LittleEndian, Fit, Scaled, PairDigit, First, Rest, Blanks;
      destination := 0;
      var nbByte := 0;
      var i := length;
      while i > 0
        invariant Valid()
        invariant LittleEndian(Remaining(), i, nbByte, destination, base, modulus)
               == LittleEndian(old(Remaining()), length, 0, 0, base, modulus)
        decreases |Remaining()|, i
      {
        LittleStep(Remaining(), i, nbByte, destination, base, modulus);
        PairShrinks(Remaining());
        var c := Get();
        var d := Get();
        var byte := PairDigit(PairDigit(0, c, base), d, base);
        i := i + Blanks(c) + Blanks(d) - 2;
        destination := Fit(destination + Scaled(byte, nbByte), modulus);
        nbByte := nbByte + 1;
      }
      LittleStep(Remaining(), i, nbByte, destination, base, modulus);
    }

    method Ignore(length: int)
      requires Valid()
      modifies this
      ensures Valid() && Remaining() == After(old(Remaining()), length)
    {
      var i := length;
      while i > 0
        invariant Valid()
        invariant After(Remaining(), i) == After(old(Remaining()), length)
        decreases |text| - position, i
      {
        var c := Get();
        if !(c.Some? && IsBlank(c.value)) {
          i := i - 1;
        }
      }
    }
  }

  // ------------------------------------------------------------------------ characters

  /** Exactly these characters are digits, in either case, and exactly these are blank. */
  lemma Characters(c: char)
    ensures IsHexDigit(c) <==> c in "0123456789ABCDEFabcdef"
    ensures IsHexDigit(c) ==> c == "0123456789abcdef"[DigitValue(c)] || c == "0123456789ABCDEF"[DigitValue(c)]
    ensures IsBlank(c) <==> c in " \t\n\U{b}\U{c}\r"
  {
  }

  predicate InOtherCase(c: char, d: char) {
    'a' <= c <= 'f' && 'A' <= d <= 'F' && c as int - 'a' as int == d as int - 'A' as int
  }

  /** The number does not depend on the case of its digits. */
  lemma {:induction false} CaseDoesNotMatter(s: string, t: string, base: nat, modulus: nat)
    requires modulus > 0 && |s| == |t|
    requires forall i :: 0 <= i < |s| ==> s[i] == t[i] || InOtherCase(s[i], t[i]) || InOtherCase(t[i], s[i])
    ensures Value(s, base, modulus) == Value(t, base, modulus)
  {
    hide Fit;
    if s == [] {
    } else {
      var n := |s| - 1;
      CaseDoesNotMatter(s[..n], t[..n], base, modulus);
    }
  }

  // ------------------------------------------------------------- blanks do not matter

  function Squeeze(s: string): string {
    if s == [] then [] else (if IsBlank(s[0]) then [] else [s[0]]) + Squeeze(s[1..])
  }

  /** Parsing or ignoring consumes exactly the requested number of characters that are
      not blank (fewer only at the end of the stream), as on the stream without blanks. */
  lemma {:induction false} BlanksAreSkipped(s: string, n: int)
    ensures var all := Squeeze(s);
      var k := if n < 0 then 0 else if n < |all| then n else |all|;
      Taken(s, n) == all[..k] && Squeeze(After(s, n)) == all[k..]
  {
    if n <= 0 || s == [] {
    } else {
      BlanksAreSkipped(s[1..], if IsBlank(s[0]) then n else n - 1);
    }
  }

  lemma {:induction false} SqueezedIsFixed(s: string)
    requires forall i :: 0 <= i < |s| ==> !IsBlank(s[i])
    ensures Squeeze(s) == s
  {
    if s == [] {
    } else {
      SqueezedIsFixed(s[1..]);
    }
  }

  /** Without blanks, characters are simply cut off the front. */
  lemma WithoutBlanks(s: string, n: nat)
    requires forall i :: 0 <= i < |s| ==> !IsBlank(s[i])
    ensures Taken(s, n) == Upto(s, n) && After(s, n) == Beyond(s, n)
  {
    BlanksAreSkipped(s, n);
    SqueezedIsFixed(s);
    AfterIsSuffix(s, n);
    SqueezedIsFixed(After(s, n));
  }

  lemma {:induction false} AfterIsSuffix(s: string, n: int)
    ensures |After(s, n)| <= |s| && After(s, n) == s[|s| - |After(s, n)|..]
  {
    if n <= 0 || s == [] {
    } else {
      AfterIsSuffix(s[1..], if IsBlank(s[0]) then n else n - 1);
    }
  }

  // ---------------------------------------------------------------------- the printer

  type Byte = b: nat | b < 256

  const DIGITS := "0123456789abcdef"

  function Digit(d: nat): char
    requires d < 16
  {
    DIGITS[d]
  }

  lemma DigitReads(d: nat)
    requires d < 16
    ensures IsHexDigit(Digit(d)) && DigitValue(Digit(d)) == d
  {
  }

  /** The sixteen-based digits of a number, in a given length. */
  function HexOf(v: nat, length: nat): (s: string)
    ensures |s| == length
  {
    if length == 0 then [] else HexOf(v / 16, length - 1) + [Digit(v % 16)]
  }

  function HexOfBytes(bytes: seq<Byte>): (s: string)
    ensures |s| == 2 * |bytes|
  {
    if bytes == [] then [] else HexOfBytes(bytes[..|bytes| - 1]) + HexOf(bytes[|bytes| - 1], 2)
  }

  method Hexify(bytes: seq<Byte>) returns (output: string)
    ensures output == HexOfBytes(bytes)
  {
    output := [];
    for k := 0 to |bytes|
      invariant output == HexOfBytes(bytes[..k])
    {
      var c := bytes[k];
      assert bytes[..k + 1][..k] == bytes[..k];
      TwoDigits(c);
      output := output + [DIGITS[c / 16]];
      output := output + [DIGITS[c % 16]];
    }
    assert bytes[..|bytes|] == bytes;
  }

  lemma HexIsNotBlank(s: string)
    requires AllHex(s)
    ensures forall i :: 0 <= i < |s| ==> !IsBlank(s[i])
  {
  }

  lemma OneDigit(v: nat, modulus: nat)
    requires v < modulus
    ensures Accumulate(v / 16, Digit(v % 16), 16, modulus) == v
  {
    DigitReads(v % 16);
    hide DigitValue, IsHexDigit, Digit;
    SmallFits(v, modulus);
    assert v / 16 * 16 + DigitValue(Digit(v % 16)) == v;
  }

  lemma SmallFits(v: nat, modulus: nat)
    requires v < modulus
    ensures Fit(v, modulus) == v
  {
  }

  lemma PowStep(b: nat, e: nat)
    ensures Pow(b, e + 1) == b * Pow(b, e)
  {
  }

  lemma HexOfStep(v: nat, length: nat)
    requires length > 0
    ensures HexOf(v, length) == HexOf(v / 16, length - 1) + [Digit(v % 16)]
  {
  }

  /** Reading undoes printing, in any destination that is wide enough. */
  lemma {:induction false} ReadingUndoesPrinting(v: nat, length: nat, modulus: nat)
    requires v < Pow(16, length) && v < modulus
    ensures Value(HexOf(v, length), 16, modulus) == v
  {
    hide Accumulate, HexOf, Digit, Pow;
    if length > 0 {
      var s := HexOf(v, length);
      HexOfStep(v, length);
      assert s[..|s| - 1] == HexOf(v / 16, length - 1);
      PowStep(16, length - 1);
      ReadingUndoesPrinting(v / 16, length - 1, modulus);
      OneDigit(v, modulus);
    } else {
      PowZero(16);
    }
  }

  lemma TwoDigits(v: nat)
    ensures HexOf(v, 2) == [Digit(v / 16 % 16), Digit(v % 16)]
  {
    hide IsHexDigit, Digit;
    assert HexOf(v / 16 / 16, 0) == [];
    assert HexOf(v / 16, 1) == HexOf(v / 16 / 16, 0) + [Digit(v / 16 % 16)];
  }

  lemma TwoMoreDigits(v: nat, b: Byte, length: nat)
    ensures HexOf(v * 256 + b, length + 2) == HexOf(v, length) + HexOf(b, 2)
  {
    hide IsHexDigit, Digit;
    var w := v * 16 + b / 16;
    assert (v * 256 + b) / 16 == w && (v * 256 + b) % 16 == b % 16;
    assert w / 16 == v && w % 16 == b / 16;
    TwoDigits(b);
    assert HexOf(v * 256 + b, length + 2) == HexOf(w, length + 1) + [Digit(b % 16)];
    assert HexOf(w, length + 1) == HexOf(v, length) + [Digit(b / 16)];
  }

  lemma ByteFits(v: nat, b: Byte, n: nat)
    requires v < Pow(16, n)
    ensures v * 256 + b < Pow(16, n + 2)
  {
    PowStep(16, n);
    PowStep(16, n + 1);
  }

  predicate AllHex(s: string) {
    forall i :: 0 <= i < |s| ==> IsHexDigit(s[i])
  }

  lemma {:induction false} HexOfBytesIsHex(bytes: seq<Byte>)
    ensures AllHex(HexOfBytes(bytes))
  {
    hide Digit, IsHexDigit, HexOf;
    if bytes == [] {
    } else {
      var b := bytes[|bytes| - 1];
      HexOfBytesIsHex(bytes[..|bytes| - 1]);
      TwoDigits(b);
      DigitReads(b / 16);
      DigitReads(b % 16);
    }
  }

  /** The number that a sequence of bytes stands for, the most significant first. */
  function BigEndian(bytes: seq<Byte>): nat {
    if bytes == [] then 0 else BigEndian(bytes[..|bytes| - 1]) * 256 + bytes[|bytes| - 1]
  }

  lemma {:induction false} BigEndianFits(bytes: seq<Byte>)
    ensures BigEndian(bytes) < Pow(16, 2 * |bytes|)
  {
    hide Pow;
    if bytes != [] {
      var n := |bytes| - 1;
      BigEndianFits(bytes[..n]);
      ByteFits(BigEndian(bytes[..n]), bytes[n], 2 * n);
    } else {
      PowZero(16);
    }
  }

  /** `hexify` prints the sixteen-based digits of the number that the bytes stand for. */
  lemma {:induction false} HexifyIsHex(bytes: seq<Byte>)
    ensures HexOfBytes(bytes) == HexOf(BigEndian(bytes), 2 * |bytes|)
  {
    hide HexOf;
    if bytes == [] {
    } else {
      var n := |bytes| - 1;
      HexifyIsHex(bytes[..n]);
      TwoMoreDigits(BigEndian(bytes[..n]), bytes[n], 2 * n);
      assert 2 * n + 2 == 2 * |bytes|;
    }
  }

  lemma PowZero(b: nat)
    ensures Pow(b, 0) == 1
  {
  }

  /** Big-endian parsing undoes `hexify`, whatever blanks are spread over its output and
      whatever follows it. */
  lemma ParseUndoesHexify(bytes: seq<Byte>, stream: string, modulus: nat)
    requires BigEndian(bytes) < modulus
    requires |Squeeze(stream)| >= 2 * |bytes| && Squeeze(stream)[..2 * |bytes|] == HexOfBytes(bytes)
    ensures Value(Taken(stream, 2 * |bytes|), 16, modulus) == BigEndian(bytes)
  {
    BlanksAreSkipped(stream, 2 * |bytes|);
    HexifyIsHex(bytes);
    BigEndianFits(bytes);
    ReadingUndoesPrinting(BigEndian(bytes), 2 * |bytes|, modulus);
  }

  /** The number that bytes stand for from position k on, the least significant first. */
  function LittleEndianValue(bytes: seq<Byte>, k: nat): nat {
    if bytes == [] then 0 else Scaled(bytes[0], k) + LittleEndianValue(bytes[1..], k + 1)
  }

  lemma PairIsByte(b: Byte)
    ensures PairDigit(PairDigit(0, Some(Digit(b / 16)), 16), Some(Digit(b % 16)), 16) == b
    ensures Blanks(Some(Digit(b / 16))) == 0 && Blanks(Some(Digit(b % 16))) == 0
  {
    DigitReads(b / 16);
    DigitReads(b % 16);
    NotBlank(Digit(b / 16));
    NotBlank(Digit(b % 16));
    hide DigitValue, IsHexDigit, IsBlank, Digit;
  }

  lemma NotBlank(c: char)
    requires IsHexDigit(c)
    ensures !IsBlank(c)
  {
  }

  lemma LittlePair(b: Byte, tail: string, i: int, k: nat, v: nat, modulus: nat)
    requires i > 0 && modulus > 0
    ensures LittleEndian([Digit(b / 16), Digit(b % 16)] + tail, i, k, v, 16, modulus)
         == LittleEndian(tail, i - 2, k + 1, Fit(v + Scaled(b, k), modulus), 16, modulus)
  {
    PairIsByte(b);
    hide Scaled, PairDigit, Blanks, Digit;
    var s := [Digit(b / 16), Digit(b % 16)] + tail;
    assert First(s) == Some(Digit(b / 16)) && First(Rest(s)) == Some(Digit(b % 16)) && Rest(Rest(s)) == tail;
  }

  /** Little-endian parsing undoes `hexify` on a stream without blanks. */
  lemma {:induction false} ParseLittleUndoesHexify(bytes: seq<Byte>, rest: string, k: nat, v: nat, modulus: nat)
    requires v + LittleEndianValue(bytes, k) < modulus
    ensures LittleEndian(HexOfBytes(bytes) + rest, 2 * |bytes|, k, v, 16, modulus)
         == (v + LittleEndianValue(bytes, k), rest)
  {
    hide Scaled, HexOf, Digit, LittleEndian, IsHexDigit, Fit;
    var s := HexOfBytes(bytes) + rest;
    if bytes == [] {
      assert s == rest;
      LittleStep(s, 0, k, v, 16, modulus);
    } else {
      var b, tail := bytes[0], HexOfBytes(bytes[1..]) + rest;
      HexOfCons(bytes);
      TwoDigits(b);
      assert s == [Digit(b / 16), Digit(b % 16)] + tail;
      LittlePair(b, tail, 2 * |bytes|, k, v, modulus);
      SmallFits(v + Scaled(b, k), modulus);
      ParseLittleUndoesHexify(bytes[1..], rest, k + 1, v + Scaled(b, k), modulus);
    }
  }

  // --------------------------------------------------------- little-endian, with blanks

  function BlankCount(s: string): nat {
    if s == [] then 0 else (if IsBlank(s[0]) then 1 else 0) + BlankCount(s[1..])
  }

  /** The pairs that are read: the first n for which twice n makes up for the length and
      for the blanks among the characters read. */
  predicate PairsRead(s: string, length: int, n: nat) {
    && 2 * n >= length + BlankCount(Upto(s, 2 * n))
    && forall j: nat :: j < n ==> 2 * j < length + BlankCount(Upto(s, 2 * j))
  }

  function PairOf(s: string, base: nat): nat {
    PairDigit(PairDigit(0, First(s), base), First(Rest(s)), base)
  }

  /** The sum of the first n pairs, where a blank, as any other character that is not a
      digit, contributes no digit to its pair. */
  function PairSum(s: string, k: nat, n: nat, base: nat): nat
    decreases n
  {
    if n == 0 then 0 else Scaled(PairOf(s, base), k) + PairSum(Rest(Rest(s)), k + 1, n - 1, base)
  }

  lemma BlanksOfPair(s: string, n: nat)
    ensures BlankCount(Upto(s, 2 * n + 2))
         == Blanks(First(s)) + Blanks(First(Rest(s))) + BlankCount(Upto(Rest(Rest(s)), 2 * n))
    ensures Beyond(s, 2 * n + 2) == Beyond(Rest(Rest(s)), 2 * n)
  {
    hide IsBlank;
    var t := Upto(s, 2 * n + 2);
    if |s| >= 2 {
      assert t[1..][1..] == Upto(Rest(Rest(s)), 2 * n);
    } else {
      assert t == s && (s != [] ==> s[1..] == []);
    }
  }

  lemma PairsReadStep(s: string, length: int, n: nat)
    requires length > 0
    requires PairsRead(Rest(Rest(s)), length + Blanks(First(s)) + Blanks(First(Rest(s))) - 2, n)
    ensures PairsRead(s, length, n + 1)
  {
    hide BlankCount, Upto, Blanks, First, Rest;
    BlanksOfPair(s, n);
    forall j: nat | j < n + 1 ensures 2 * j < length + BlankCount(Upto(s, 2 * j)) {
      if j == 0 {
        NoPrefix(s);
      } else {
        BlanksOfPair(s, j - 1);
      }
    }
  }

  lemma NoPrefix(s: string)
    ensures Upto(s, 0) == [] && Beyond(s, 0) == s && BlankCount([]) == 0
  {
  }

  lemma FitIsRemainder(v: nat, q: int, r: nat, modulus: nat)
    requires r < modulus && v == modulus * q + r
    ensures Fit(v, modulus) == r
  {
    var d, t := v / modulus, v % modulus;
    assert v == modulus * d + t;
    assert modulus * (q - d) == t - r;
    OnlyZero(modulus, q - d);
  }

  lemma OnlyZero(modulus: int, k: int)
    requires -modulus < modulus * k < modulus
    ensures k == 0
  {
  }

  lemma FitTwice(a: nat, b: nat, modulus: nat)
    requires modulus > 0
    ensures Fit(Fit(a, modulus) + b, modulus) == Fit(a + b, modulus) && Fit(a, modulus) < modulus
  {
    var low := Fit(a, modulus);
    var q, d := a / modulus, (low + b) / modulus;
    var r := (low + b) % modulus;
    assert a + b == modulus * (q + d) + r by {
      assert modulus * (q + d) == modulus * q + modulus * d;
    }
    FitIsRemainder(a + b, q + d, r, modulus);
  }

  /** What little-endian parsing reads from any stream. */
  lemma {:induction false} PairsFrom(s: string, i: int, k: nat, v: nat, base: nat, modulus: nat) returns (n: nat)
    requires v < modulus
    ensures PairsRead(s, i, n)
    ensures LittleEndian(s, i, k, v, base, modulus) == (Fit(v + PairSum(s, k, n, base), modulus), Beyond(s, 2 * n))
    decreases |s|, i
  {
    hide PairsRead, Beyond, Fit, PairOf, PairDigit, Scaled;
    if i <= 0 {
      n := 0;
      NoPrefix(s);
      SmallFits(v, modulus);
      NothingToRead(s, i);
    } else {
      var c, d := First(s), First(Rest(s));
      var byte := PairOf(s, base);
      var w := Fit(v + Scaled(byte, k), modulus);
      var m := i + Blanks(c) + Blanks(d) - 2;
      PairUnfolds(s, base);
      FitTwice(v + Scaled(byte, k), 0, modulus);
      var rest := PairsFrom(Rest(Rest(s)), m, k + 1, w, base, modulus);
      n := rest + 1;
      PairsReadStep(s, i, rest);
      BlanksOfPair(s, rest);
      FitTwice(v + Scaled(byte, k), PairSum(Rest(Rest(s)), k + 1, rest, base), modulus);
    }
  }

  lemma PairUnfolds(s: string, base: nat)
    ensures PairOf(s, base) == PairDigit(PairDigit(0, First(s), base), First(Rest(s)), base)
  {
  }

  lemma NothingToRead(s: string, i: int)
    requires i <= 0
    ensures PairsRead(s, i, 0)
  {
  }

  lemma {:induction false} BlanksOfMore(s: string, n: nat)
    ensures BlankCount(Upto(s, n)) <= BlankCount(Upto(s, n + 1)) <= BlankCount(Upto(s, n)) + 1
  {
    if s == [] {
    } else if n == 0 {
      assert Upto(s, 0) == [] && Upto(s, 1) == [s[0]];
    } else {
      BlanksOfMore(s[1..], n - 1);
      assert Upto(s, n)[1..] == Upto(s[1..], n - 1) && Upto(s, n + 1)[1..] == Upto(s[1..], n);
    }
  }

  /** From any stream: the value is the sum of the pairs read, in the width of the
      destination, and blanks are made up for, with at most one character too many. */
  lemma LittleEndianReads(s: string, length: nat, base: nat, modulus: nat) returns (n: nat)
    requires modulus > 0
    ensures PairsRead(s, length, n)
    ensures length <= 2 * n - BlankCount(Upto(s, 2 * n)) <= length + 1
    ensures LittleEndian(s, length, 0, 0, base, modulus) == (Fit(PairSum(s, 0, n, base), modulus), Beyond(s, 2 * n))
  {
    n := PairsFrom(s, length, 0, 0, base, modulus);
    hide BlankCount, LittleEndian, PairSum;
    if n == 0 {
    } else {
      assert 2 * (n - 1) < length + BlankCount(Upto(s, 2 * (n - 1)));
      BlanksOfMore(s, 2 * n - 2);
      BlanksOfMore(s, 2 * n - 1);
    }
  }

  predicate NoBlank(s: string) {
    forall i :: 0 <= i < |s| ==> !IsBlank(s[i])
  }

  lemma {:induction false} NoneCounted(s: string)
    ensures BlankCount(s) == 0 <==> NoBlank(s)
  {
    if s == [] {
    } else {
      NoneCounted(s[1..]);
      assert forall i :: 0 < i < |s| ==> s[i] == s[1..][i - 1];
    }
  }

  lemma {:induction false} SqueezeBeyond(s: string, n: nat)
    requires NoBlank(Upto(s, n))
    ensures Upto(Squeeze(s), n) == Upto(s, n) && Squeeze(Beyond(s, n)) == Beyond(Squeeze(s), n)
  {
    if n == 0 || s == [] {
    } else {
      var t := Upto(s, n);
      assert !IsBlank(t[0]);
      assert t[1..] == Upto(s[1..], n - 1);
      SqueezeBeyond(s[1..], n - 1);
      var all := Squeeze(s);
      assert all == [s[0]] + Squeeze(s[1..]) && all[1..] == Squeeze(s[1..]);
    }
  }

  lemma {:induction false} SamePairs(s: string, t: string, k: nat, n: nat, base: nat)
    requires Upto(s, 2 * n) == Upto(t, 2 * n)
    ensures PairSum(s, k, n, base) == PairSum(t, k, n, base)
    decreases n
  {
    if n == 0 {
    } else {
      hide PairDigit, Scaled;
      assert Rest(Rest(Upto(s, 2 * n))) == Upto(Rest(Rest(s)), 2 * (n - 1));
      assert Rest(Rest(Upto(t, 2 * n))) == Upto(Rest(Rest(t)), 2 * (n - 1));
      assert First(Upto(s, 2 * n)) == First(s) && First(Rest(Upto(s, 2 * n))) == First(Rest(s));
      assert First(Upto(t, 2 * n)) == First(t) && First(Rest(Upto(t, 2 * n))) == First(Rest(t));
      SamePairs(Rest(Rest(s)), Rest(Rest(t)), k + 1, n - 1, base);
    }
  }

  lemma NotEnough(s: string, length: int, n: nat, j: nat)
    requires PairsRead(s, length, n) && j < n
    ensures 2 * j < length + BlankCount(Upto(s, 2 * j))
  {
  }

  lemma HalfIsRead(s: string, length: nat, n: nat)
    requires length % 2 == 0 && NoBlank(Upto(s, length)) && PairsRead(s, length, n)
    ensures n == length / 2
  {
    NoneCounted(Upto(s, length));
    var h := length / 2;
    assert 2 * h == length;
    hide Upto, BlankCount, NoBlank;
    if n > h {
      NotEnough(s, length, n, h);
    }
  }

  /** When no blank is among the first characters, as many as the length, blanks further
      on make no difference: the number is that of the stream without blanks. */
  lemma NoBlankNoDifference(s: string, length: nat, base: nat, modulus: nat)
    requires length % 2 == 0 && modulus > 0 && NoBlank(Upto(s, length))
    ensures var r := LittleEndian(s, length, 0, 0, base, modulus);
      var t := LittleEndian(Squeeze(s), length, 0, 0, base, modulus);
      r.0 == t.0 && Squeeze(r.1) == t.1
  {
    var all, h := Squeeze(s), length / 2;
    assert 2 * h == length;
    SqueezeBeyond(s, length);
    hide LittleEndian, Upto, Beyond, BlankCount, NoBlank, PairSum, Squeeze, Fit;
    var n := LittleEndianReads(s, length, base, modulus);
    var m := LittleEndianReads(all, length, base, modulus);
    HalfIsRead(s, length, n);
    HalfIsRead(all, length, m);
    SamePairs(s, all, 0, h, base);
  }

  /** The smallest case where it makes one: a blank takes the place of a digit, and the
      number read is another one unless it is zero. */
  lemma BlankTakesTheDigit(x: char, y: char)
    requires IsHexDigit(x) && IsHexDigit(y)
    ensures var m := 0x1_0000;
      LittleEndian([' ', x, y], 2, 0, 0, 16, m).0 == LittleEndian([x, y], 2, 0, 0, 16, m).0
      <==> DigitValue(x) == 0 && DigitValue(y) == 0
  {
    hide LittleEndian, DigitValue, IsHexDigit;
    PairAlone(x, y);
    PairAfterBlank(x, y);
  }

  lemma PairAlone(x: char, y: char)
    requires IsHexDigit(x) && IsHexDigit(y)
    ensures LittleEndian([x, y], 2, 0, 0, 16, 0x1_0000).0 == DigitValue(x) * 16 + DigitValue(y)
  {
    hide LittleEndian, DigitValue, IsHexDigit, Scaled, PairDigit, Blanks, Fit;
    var m, byte := 0x1_0000, DigitValue(x) * 16 + DigitValue(y);
    assert [x, y][1..] == [y] && [y][1..] == [];
    ReadsAsDigit(0, x);
    ReadsAsDigit(DigitValue(x), y);
    ScaledTwice(byte);
    SmallFits(byte, m);
    LittleStep([x, y], 2, 0, 0, 16, m);
    LittleStep([], 0, 1, byte, 16, m);
  }

  lemma PairAfterBlank(x: char, y: char)
    requires IsHexDigit(x) && IsHexDigit(y)
    ensures LittleEndian([' ', x, y], 2, 0, 0, 16, 0x1_0000).0 == DigitValue(x) + 256 * DigitValue(y)
  {
    hide LittleEndian, DigitValue, IsHexDigit, Scaled, PairDigit, Blanks, Fit;
    var m, v, w := 0x1_0000, DigitValue(x), DigitValue(y);
    assert [' ', x, y][1..] == [x, y] && [x, y][1..] == [y] && [y][1..] == [];
    ReadsAsDigit(0, x);
    ReadsAsDigit(0, y);
    NotADigit(w);
    ScaledTwice(v);
    ScaledTwice(w);
    SmallFits(v, m);
    SmallFits(v + 256 * w, m);
    LittleStep([' ', x, y], 2, 0, 0, 16, m);
    LittleStep([y], 1, 1, v, 16, m);
    LittleStep([], -1, 2, v + 256 * w, 16, m);
  }

  lemma ReadsAsDigit(v: nat, c: char)
    requires IsHexDigit(c)
    ensures PairDigit(v, Some(c), 16) == v * 16 + DigitValue(c) && Blanks(Some(c)) == 0
  {
  }

  lemma NotADigit(v: nat)
    ensures PairDigit(0, Some(' '), 16) == 0 && Blanks(Some(' ')) == 1
    ensures PairDigit(v, None, 16) == v && Blanks(None) == 0
  {
  }

  lemma ScaledTwice(v: nat)
    ensures Scaled(v, 0) == v && Scaled(v, 1) == 256 * v
  {
    assert Pow(256, 1) == 256 by { assert Pow(256, 0) == 1; }
  }

  lemma {:induction false} HexOfCons(bytes: seq<Byte>)
    requires bytes != []
    ensures HexOfBytes(bytes) == HexOf(bytes[0], 2) + HexOfBytes(bytes[1..])
  {
    var n := |bytes| - 1;
    if n > 0 {
      HexOfCons(bytes[..n]);
      assert bytes[..n][1..] == bytes[1..][..n - 1];
    } else {
      assert bytes[..0] == [] && bytes[1..] == [];
    }
  }
}

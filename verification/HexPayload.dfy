/** Payloads printed in hexadecimal: numbers at given positions, and bytes. */
module HexPayloads {
  import opened HexParser

  /** The number printed in some of the characters of a payload, or in those of them that
      there are. */
  function Field(payload: string, at: nat, length: nat, modulus: nat): nat
    requires modulus > 0
  {
    Value(Upto(Beyond(payload, at), length), 16, modulus)
  }

  lemma BeyondBeyond(payload: string, at: nat, length: nat)
    ensures Beyond(Beyond(payload, at), length) == Beyond(payload, at + length)
  {
  }

  /** One field of a payload without blanks. */
  method ReadField(stream: InputStream, length: nat, modulus: nat, ghost payload: string, ghost at: nat)
    returns (value: nat)
    requires stream.Valid() && modulus > 0
    requires AllHex(payload) && stream.Remaining() == Beyond(payload, at)
    modifies stream
    ensures stream.Valid() && stream.Remaining() == Beyond(payload, at + length)
    ensures value == Field(payload, at, length, modulus)
  {
    HexIsNotBlank(payload);
    WithoutBlanks(stream.Remaining(), length);
    BeyondBeyond(payload, at, length);
    value := stream.Parse(length, 16, modulus);
  }

  method SkipField(stream: InputStream, length: nat, ghost payload: string, ghost at: nat)
    requires stream.Valid()
    requires AllHex(payload) && stream.Remaining() == Beyond(payload, at)
    modifies stream
    ensures stream.Valid() && stream.Remaining() == Beyond(payload, at + length)
  {
    HexIsNotBlank(payload);
    WithoutBlanks(stream.Remaining(), length);
    BeyondBeyond(payload, at, length);
    stream.Ignore(length);
  }

  /** The bytes of a number, the most significant first. */
  function BytesOf(v: nat, length: nat): (bytes: seq<Byte>)
    ensures |bytes| == length
  {
    if length == 0 then [] else BytesOf(v / 256, length - 1) + [v % 256]
  }

  lemma {:induction false} BytesRoundTrip(v: nat, length: nat)
    requires v < Pow(256, length)
    ensures BigEndian(BytesOf(v, length)) == v
  {
    if length == 0 {
    } else {
      PowStep(256, length - 1);
      hide Pow;
      BytesRoundTrip(v / 256, length - 1);
      assert BytesOf(v, length)[..length - 1] == BytesOf(v / 256, length - 1);
    }
  }

  lemma {:induction false} HexOfConcat(a: seq<Byte>, b: seq<Byte>)
    ensures HexOfBytes(a + b) == HexOfBytes(a) + HexOfBytes(b)
  {
    hide HexOfBytes, HexOf;
    if b == [] {
      assert a + b == a;
      PrintOne([]);
    } else {
      var n := |b| - 1;
      assert (a + b)[..|a| + n] == a + b[..n];
      HexOfConcat(a, b[..n]);
      PrintOne(b);
      PrintOne(a + b);
      assert HexOfBytes(a) + (HexOfBytes(b[..n]) + HexOf(b[n], 2))
          == HexOfBytes(a) + HexOfBytes(b[..n]) + HexOf(b[n], 2);
    }
  }

  lemma PrintOne(bytes: seq<Byte>)
    ensures var n := |bytes| - 1;
      HexOfBytes(bytes) == if n < 0 then [] else HexOfBytes(bytes[..n]) + HexOf(bytes[n], 2)
  {
    hide HexOf;
  }

  /** The characters at an even position of the printed packet are those of its bytes. */
  lemma FieldOfBytes(bytes: seq<Byte>, at: nat, v: nat, length: nat, modulus: nat)
    requires at + length <= |bytes| && bytes[at..at + length] == BytesOf(v, length)
    requires v < Pow(256, length) && v < modulus
    ensures Field(HexOfBytes(bytes), 2 * at, 2 * length, modulus) == v
  {
    hide Field, Value, HexOfBytes, BigEndian, Pow, HexOf, BytesOf;
    var b := bytes[at..at + length];
    FieldIsPart(bytes, at, length, modulus);
    HexifyIsHex(b);
    BytesRoundTrip(v, length);
    BigEndianFits(b);
    ReadingUndoesPrinting(v, 2 * length, modulus);
  }

  lemma FieldIsPart(bytes: seq<Byte>, at: nat, length: nat, modulus: nat)
    requires at + length <= |bytes| && modulus > 0
    ensures Field(HexOfBytes(bytes), 2 * at, 2 * length, modulus)
         == Value(HexOfBytes(bytes[at..at + length]), 16, modulus)
  {
    hide Value, HexOfBytes, IsHexDigit;
    var a, b, c := bytes[..at], bytes[at..at + length], bytes[at + length..];
    assert bytes == a + (b + c);
    HexOfConcat(a, b + c);
    HexOfConcat(b, c);
    MiddleOf(HexOfBytes(a), HexOfBytes(b), HexOfBytes(c));
  }

  lemma MiddleOf(a: string, b: string, c: string)
    ensures Upto(Beyond(a + (b + c), |a|), |b|) == b
  {
  }

  // ------------------------------------------------------------------- byte by byte

  /** The bytes that a payload stands for, two characters each. */
  function BytesIn(payload: string): (bytes: seq<Byte>)
    requires |payload| % 2 == 0 && AllHex(payload)
  {
    seq(|payload| / 2, k requires 0 <= k < |payload| / 2 => ByteAt(payload, k))
  }

  function ByteAt(payload: string, k: nat): Byte
    requires 2 * k + 2 <= |payload|
  {
    Fits16(payload, k);
    Field(payload, 2 * k, 2, 0x1_0000)
  }

  lemma Fits16(payload: string, k: nat)
    requires 2 * k + 2 <= |payload|
    ensures Field(payload, 2 * k, 2, 0x1_0000) < 256
  {
    hide Value;
    ValueFits(Upto(Beyond(payload, 2 * k), 2), 0x1_0000);
    assert Pow(16, 2) == 256 by { assert Pow(16, 1) == 16; }
  }

  lemma {:induction false} ValueFits(s: string, modulus: nat)
    requires modulus > 0
    ensures Value(s, 16, modulus) < Pow(16, |s|)
  {
    hide Accumulate, Pow;
    if s == [] {
      PowZero(16);
    } else {
      var v := Value(s[..|s| - 1], 16, modulus);
      ValueFits(s[..|s| - 1], modulus);
      PowStep(16, |s| - 1);
      OneMoreFits(v, s[|s| - 1], modulus);
    }
  }

  lemma OneMoreFits(v: nat, c: char, modulus: nat)
    requires modulus > 0
    ensures Accumulate(v, c, 16, modulus) <= 16 * v + 15
  {
    hide Fit;
    if IsHexDigit(c) {
      FitIsBelow(v * 16 + DigitValue(c), modulus);
    }
  }

  lemma FitIsBelow(v: nat, modulus: nat)
    requires modulus > 0
    ensures Fit(v, modulus) <= v
  {
  }

  /** Reading the bytes undoes printing them. */
  lemma BytesInPrinted(bytes: seq<Byte>)
    ensures AllHex(HexOfBytes(bytes)) && BytesIn(HexOfBytes(bytes)) == bytes
  {
    HexOfBytesIsHex(bytes);
    hide HexOfBytes, AllHex, Field;
    forall k | 0 <= k < |bytes| ensures ByteAt(HexOfBytes(bytes), k) == bytes[k] {
      OneByte(bytes, k);
    }
  }

  lemma OneByte(bytes: seq<Byte>, k: nat)
    requires k < |bytes|
    ensures Field(HexOfBytes(bytes), 2 * k, 2, 0x1_0000) == bytes[k]
  {
    hide Field, HexOfBytes, BytesOf, Pow;
    ByteIsItsBytes(bytes[k]);
    assert bytes[k..k + 1] == [bytes[k]];
    FieldOfBytes(bytes, k, bytes[k], 1, 0x1_0000);
  }

  lemma ByteIsItsBytes(v: Byte)
    ensures BytesOf(v, 1) == [v] && v < Pow(256, 1)
  {
    assert BytesOf(v / 256, 0) == [];
    assert Pow(256, 0) == 1;
  }

  lemma OneByteMore(payload: string, k: nat)
    requires |payload| % 2 == 0 && AllHex(payload) && 2 * k + 2 <= |payload|
    ensures |BytesIn(payload)| == |payload| / 2
    ensures BytesIn(payload)[..k + 1] == BytesIn(payload)[..k] + [ByteAt(payload, k)]
  {
    hide ByteAt, AllHex;
    assert BytesIn(payload)[k] == ByteAt(payload, k);
  }

  method ReadByte(stream: InputStream, ghost payload: string, ghost k: nat) returns (b: Byte)
    requires 2 * k + 2 <= |payload| && AllHex(payload)
    requires stream.Valid() && stream.Remaining() == Beyond(payload, 2 * k)
    modifies stream
    ensures stream.Valid() && stream.Remaining() == Beyond(payload, 2 * (k + 1))
    ensures b == ByteAt(payload, k)
  {
    hide AllHex, Field, Beyond;
    Fits16(payload, k);
    b := ReadField(stream, 2, 0x1_0000, payload, 2 * k);
    assert 2 * k + 2 == 2 * (k + 1);
  }

  /** The bytes at the beginning of a payload, one field after the other. */
  method ReadBytes(payload: string, count: nat) returns (raw: seq<Byte>)
    requires |payload| % 2 == 0 && AllHex(payload) && 2 * count <= |payload|
    ensures |BytesIn(payload)| == |payload| / 2 && raw == BytesIn(payload)[..count]
  {
    hide AllHex, BytesIn, ByteAt, Beyond;
    LengthOfBytes(payload);
    NoPrefix(payload);
    ghost var all := BytesIn(payload);
    var stream := new InputStream(payload);
    raw := [];
    for k := 0 to count
      invariant stream.Valid() && stream.Remaining() == Beyond(payload, 2 * k)
      invariant raw == all[..k]
    {
      OneByteMore(payload, k);
      var b := ReadByte(stream, payload, k);
      raw := raw + [b];
    }
  }

  /** The check shared by the messages of the Liveobjects platform: one of the expected
      lengths, and hexadecimal characters only. */
  method ValidateInput(payload: string, expectedSizes: seq<int>) returns (ok: bool)
    ensures ok <==> |payload| in expectedSizes && AllHex(payload)
  {
    if |payload| !in expectedSizes {
      return false;
    }
    for i := 0 to |payload|
      invariant forall k :: 0 <= k < i ==> IsHexDigit(payload[k])
    {
      if !IsHexDigit(payload[i]) {
        return false;
      }
    }
    ok := true;
  }

  lemma LengthOfBytes(payload: string)
    requires |payload| % 2 == 0 && AllHex(payload)
    ensures |BytesIn(payload)| == |payload| / 2 && BytesIn(payload)[..|payload| / 2] == BytesIn(payload)
  {
  }
}

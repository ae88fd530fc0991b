/** Fields of bits laid one after the other in a big-endian payload. */
module BitFields {
  import opened HexParser
  import opened HexPayloads

  /** A field of `size` values appended to a number. */
  function Append(n: nat, size: nat, value: nat): nat {
    n * size + value
  }

  lemma AppendIsInjective(n: nat, m: nat, size: nat, x: nat, y: nat)
    requires x < size && y < size && Append(n, size, x) == Append(m, size, y)
    ensures n == m && x == y
  {
    if n < m {
      MulMonotone(n, m, size);
    } else if m < n {
      MulMonotone(m, n, size);
    }
  }

  lemma MulMonotone(n: nat, m: nat, size: nat)
    requires n < m
    ensures n * size + size <= m * size
  {
    assert (m - n - 1) * size >= 0;
    assert m * size == n * size + size + (m - n - 1) * size;
  }

  lemma BigEndianStep(bytes: seq<Byte>, k: nat)
    requires k < |bytes|
    ensures BigEndian(bytes[..k + 1]) == Append(BigEndian(bytes[..k]), 256, bytes[k])
  {
    assert bytes[..k + 1][..k] == bytes[..k];
  }

  /** The number that n bytes stand for, byte by byte. */
  function Horner(bytes: seq<Byte>, n: nat): nat
    requires n <= |bytes|
  {
    if n == 0 then 0 else Append(Horner(bytes, n - 1), 256, bytes[n - 1])
  }

  lemma {:induction false} HornerIsBigEndian(bytes: seq<Byte>, n: nat)
    requires n <= |bytes|
    ensures Horner(bytes, n) == BigEndian(bytes[..n])
  {
    if n == 0 {
    } else {
      HornerIsBigEndian(bytes, n - 1);
      BigEndianStep(bytes, n - 1);
    }
  }

  /** The two parts of a byte, one after the other. */
  lemma Whole(h: nat, b: nat, size: nat, rest: nat)
    requires rest > 0 && size * rest == 256
    ensures Append(Append(h, size, b / rest), rest, b % rest) == Append(h, 256, b)
  {
  }

  /** Two parts joined into one field. */
  lemma Joined(n: nat, size: nat, high: nat, rest: nat, low: nat)
    ensures Append(n, size * rest, high * rest + low) == Append(Append(n, size, high), rest, low)
  {
  }

  /** A field that begins inside a byte ends that byte. */
  lemma Continued(h: nat, b: nat, size: nat, rest: nat, more: nat, x: nat)
    requires rest > 0 && size * rest == 256
    ensures Append(Append(h, size, b / rest), rest * more, b % rest * more + x) == Append(Append(h, 256, b), more, x)
  {
  }

  lemma HornerStep(bytes: seq<Byte>, k: nat)
    requires k < |bytes|
    ensures Horner(bytes, k + 1) == Append(Horner(bytes, k), 256, bytes[k])
  {
  }

  lemma HornerStart(bytes: seq<Byte>)
    requires |bytes| > 0
    ensures Horner(bytes, 1) == bytes[0]
  {
  }

  /** A number printed in as many bytes as it needs is read back. */
  lemma NumberRoundTrip(n: nat, length: nat)
    requires n < Pow(256, length)
    ensures var payload := HexOfBytes(BytesOf(n, length));
      |payload| == 2 * length && AllHex(payload) && BigEndian(BytesIn(payload)) == n
  {
    hide HexOfBytes, BytesOf, AllHex, BytesIn, BigEndian, Pow;
    BytesInPrinted(BytesOf(n, length));
    BytesRoundTrip(n, length);
  }
  // ------------------------------------------------------------------- by number of bit

  /** Bits `first` to `last` of a number of `width` bits, counted from the highest one. */
  function Bits(n: nat, width: nat, first: nat, last: nat): nat
    requires first <= last < width
  {
    n / Pow(2, width - 1 - last) % Pow(2, last - first + 1)
  }

  lemma {:induction false} PowSum(b: nat, d: nat, e: nat)
    ensures Pow(b, d + e) == Pow(b, d) * Pow(b, e)
  {
    hide Pow;
    if d == 0 {
      PowZero(b);
    } else {
      PowStep(b, d - 1 + e);
      PowStep(b, d - 1);
      PowSum(b, d - 1, e);
      assert b * (Pow(b, d - 1) * Pow(b, e)) == b * Pow(b, d - 1) * Pow(b, e);
    }
  }

  lemma Divided(n: nat, d: nat)
    requires d > 0
    ensures n == Append(n / d, d, n % d) && n % d < d
  {
  }

  lemma QuotientIs(n: nat, d: nat, q: nat, r: nat)
    requires r < d && n == Append(q, d, r)
    ensures n / d == q && n % d == r
  {
    hide Append;
    Divided(n, d);
    AppendIsInjective(n / d, q, d, n % d, r);
  }

  lemma QuotientOfQuotient(n: nat, a: nat, b: nat)
    requires a > 0 && b > 0
    ensures a * b > 0 && n / (a * b) == n / a / b
  {
    hide Append;
    var p, t, r := n / a / b, n / a % b, n % a;
    Divided(n, a);
    Divided(n / a, b);
    Joined(p, b, t, a, r);
    MulMonotone(t, b, a);
    assert b * a == a * b;
    QuotientIs(n, b * a, p, t * a + r);
  }

  /** A field appended is the last bits, and moves the others to the front. */
  lemma AppendedBits(n: nat, size: nat, value: nat, k: nat, width: nat)
    requires 0 < k <= width && size == Pow(2, k) && value < size
    ensures Bits(Append(n, size, value), width, width - k, width - 1) == value
    ensures forall first, last :: 0 <= first <= last < width - k ==>
      Bits(Append(n, size, value), width, first, last) == Bits(n, width - k, first, last)
  {
    hide Pow;
    var m := Append(n, size, value);
    QuotientIs(m, size, n, value);
    PowZero(2);
    forall first, last | 0 <= first <= last < width - k
      ensures Bits(m, width, first, last) == Bits(n, width - k, first, last)
    {
      var rest := width - k - 1 - last;
      PowSum(2, k, rest);
      QuotientOfQuotient(m, size, Pow(2, rest));
    }
  }

  /** The first field is all there is. */
  lemma FirstBits(value: nat, size: nat, k: nat)
    requires 0 < k && size == Pow(2, k) && value < size
    ensures Bits(value, k, 0, k - 1) == value
  {
    hide Pow;
    PowZero(2);
  }

  lemma PowersOfTwo()
    ensures Pow(2, 1) == 2 && Pow(2, 2) == 4 && Pow(2, 3) == 8 && Pow(2, 5) == 32 && Pow(2, 6) == 64
    ensures Pow(2, 7) == 128 && Pow(2, 8) == 256 && Pow(2, 9) == 512 && Pow(2, 10) == 1024 && Pow(2, 11) == 2048
    ensures Pow(2, 12) == 4096 && Pow(2, 14) == 16384
  {
    assert Pow(2, 2) == 4;
    assert Pow(2, 4) == 16;
    assert Pow(2, 6) == 64;
    assert Pow(2, 8) == 256;
    assert Pow(2, 10) == 1024;
    assert Pow(2, 12) == 4096;
  }
}

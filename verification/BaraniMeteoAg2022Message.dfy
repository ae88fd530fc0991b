/** The 104-bit payload of the Barani MeteoAg: twelve fields cut out of thirteen bytes. */
module BaraniMeteoAg2022Messages {
  import opened HexParser
  import opened HexPayloads
  import opened BitFields

  /** The fields as transmitted, in the order of the payload. */
  datatype Probes = Probes(
    index: nat, battery: nat, selectorE: nat, selectorF: nat, selectorG: nat,
    e1: nat, e2: nat, e3: nat, f1: nat, f2: nat, f3: nat, g1: nat)

  predicate Fits(p: Probes) {
    && p.index < 256 && p.battery < 8 && p.selectorE < 8 && p.selectorF < 8 && p.selectorG < 8
    && p.e1 < 4096 && p.e2 < 4096 && p.e3 < 4096 && p.f1 < 4096 && p.f2 < 4096 && p.f3 < 4096 && p.g1 < 4096
  }

  function Header(p: Probes): nat {
    var n1 := Append(p.index, 8, p.battery);
    var n2 := Append(n1, 8, p.selectorE);
    var n3 := Append(n2, 8, p.selectorF);
    Append(n3, 8, p.selectorG)
  }

  /** The fields one after the other, with the widths that the format documents. */
  function Packed(p: Probes): nat {
    var n5 := Append(Header(p), 4096, p.e1);
    var n6 := Append(n5, 4096, p.e2);
    var n7 := Append(n6, 4096, p.e3);
    var n8 := Append(n7, 4096, p.f1);
    var n9 := Append(n8, 4096, p.f2);
    var n10 := Append(n9, 4096, p.f3);
    Append(n10, 4096, p.g1)
  }

  /** Where the format puts each field in the 104 bits, the first one being the highest. */
  predicate AtBits(p: Probes, n: nat) {
    && p.index == Bits(n, 104, 0, 7) && p.battery == Bits(n, 104, 8, 10)
    && p.selectorE == Bits(n, 104, 11, 13) && p.selectorF == Bits(n, 104, 14, 16)
    && p.selectorG == Bits(n, 104, 17, 19) && p.e1 == Bits(n, 104, 20, 31)
    && p.e2 == Bits(n, 104, 32, 43) && p.e3 == Bits(n, 104, 44, 55)
    && p.f1 == Bits(n, 104, 56, 67) && p.f2 == Bits(n, 104, 68, 79)
    && p.f3 == Bits(n, 104, 80, 91) && p.g1 == Bits(n, 104, 92, 103)
  }

  /** The extraction of the fields from the bytes. */
  function FieldsOf(raw: seq<nat>): Probes
    requires |raw| >= 13
  {
    Probes(
      raw[0],
      raw[1] / 32,
      raw[1] % 32 / 4,
      raw[1] % 4 * 2 + raw[2] / 128,
      raw[2] % 128 / 16,
      raw[2] % 16 * 256 + raw[3],
      raw[4] * 16 + raw[5] / 16,
      raw[5] % 16 * 256 + raw[6],
      raw[7] * 16 + raw[8] / 16,
      raw[8] % 16 * 256 + raw[9],
      raw[10] * 16 + raw[11] / 16,
      raw[11] % 16 * 256 + raw[12])
  }

  class BaraniMeteoAg2022Message {
    var probes: Probes
    var valid: bool

    constructor ()
      ensures !valid
    {
      valid := false;
      probes := Probes(0, 0, 0, 0, 0, 0, 0, 0, 0, 0, 0, 0);
    }

    /** The payload is cut into its fields: nothing is shared between two of them,
        nothing is dropped. The probes plugged into each port must be of a known kind. */
    method Ingest(payload: string)
      modifies this
      ensures |payload| == 26 && AllHex(payload) ==>
        Fits(probes) && Packed(probes) == BigEndian(BytesIn(payload)) && AtBits(probes, BigEndian(BytesIn(payload)))
      ensures |payload| == 26 && AllHex(payload) ==>
        (valid <==>
          && probes.selectorE in {0, 1, 2, 6, 7} && probes.selectorF in {0, 1, 2, 7}
          && probes.selectorG in {0, 1, 2, 3, 6, 7} && !(probes.selectorE == 7 && probes.selectorF == 7))
      ensures !(|payload| == 26 && AllHex(payload)) ==> !valid && probes == old(probes)
    {
      hide Packed, Fits, AtBits, FieldsOf, BytesIn, AllHex;
      var ok := ValidateInput(payload, [26]);
      if !ok {
        valid := false;
        return;
      }
      LengthOfBytes(payload);
      var raw: seq<nat> := ReadBytes(payload, 13);
      probes := FieldsOf(raw);
      CutsFit(raw);
      CutsPack(BytesIn(payload), raw);
      FieldsAtBits(probes);
      valid := true;
      if (probes.selectorE >= 3 && probes.selectorE <= 5) || probes.selectorE > 7 {
        valid := false;
      }
      if (probes.selectorF >= 3 && probes.selectorF <= 6) || probes.selectorF > 7 {
        valid := false;
      }
      if (probes.selectorG >= 4 && probes.selectorG <= 5) || probes.selectorG > 7 {
        valid := false;
      }
      if probes.selectorE == 7 && probes.selectorF == 7 {
        valid := false;
      }
      SelectorsFit(probes);
    }
  }

  lemma SelectorsFit(p: Probes)
    requires Fits(p)
    ensures p.selectorE <= 7 && p.selectorF <= 7 && p.selectorG <= 7
  {
  }

  lemma FieldsAtBits(p: Probes)
    requires Fits(p)
    ensures AtBits(p, Packed(p))
  {
    hide Append, Bits, Pow;
    PowersOfTwo();
    FirstBits(p.index, 256, 8);
    AppendedBits(p.index, 8, p.battery, 3, 11);
    var n1 := Append(p.index, 8, p.battery);
    AppendedBits(n1, 8, p.selectorE, 3, 14);
    var n2 := Append(n1, 8, p.selectorE);
    AppendedBits(n2, 8, p.selectorF, 3, 17);
    var n3 := Append(n2, 8, p.selectorF);
    AppendedBits(n3, 8, p.selectorG, 3, 20);
    var n4 := Append(n3, 8, p.selectorG);
    AppendedBits(n4, 4096, p.e1, 12, 32);
    var n5 := Append(n4, 4096, p.e1);
    AppendedBits(n5, 4096, p.e2, 12, 44);
    var n6 := Append(n5, 4096, p.e2);
    AppendedBits(n6, 4096, p.e3, 12, 56);
    var n7 := Append(n6, 4096, p.e3);
    AppendedBits(n7, 4096, p.f1, 12, 68);
    var n8 := Append(n7, 4096, p.f1);
    AppendedBits(n8, 4096, p.f2, 12, 80);
    var n9 := Append(n8, 4096, p.f2);
    AppendedBits(n9, 4096, p.f3, 12, 92);
    var n10 := Append(n9, 4096, p.f3);
    AppendedBits(n10, 4096, p.g1, 12, 104);
  }

  lemma CutsFit(raw: seq<nat>)
    requires |raw| == 13 && forall k :: 0 <= k < 13 ==> raw[k] < 256
    ensures Fits(FieldsOf(raw))
  {
  }

  lemma ThreeParts(b: nat)
    ensures b / 32 * 8 + b % 32 / 4 == b / 4
    ensures b / 128 * 8 + b % 128 / 16 == b / 16
  {
  }

  lemma CutsHeader(bytes: seq<Byte>, b0: nat, b1: nat, b2: nat)
    requires |bytes| == 13 && b0 == bytes[0] && b1 == bytes[1] && b2 == bytes[2]
    ensures Append(Append(Append(Append(b0, 8, b1 / 32), 8, b1 % 32 / 4), 8, b1 % 4 * 2 + b2 / 128), 8, b2 % 128 / 16)
         == Append(Horner(bytes, 2), 16, b2 / 16)
  {
    ThreeParts(b1);
    ThreeParts(b2);
    hide Append, Horner;
    HornerStart(bytes);
    HornerStep(bytes, 1);
    Joined(b0, 8, b1 / 32, 8, b1 % 32 / 4);
    Continued(b0, b1, 64, 4, 2, b2 / 128);
    Joined(Horner(bytes, 2), 2, b2 / 128, 8, b2 % 128 / 16);
  }

  lemma CutsPack(bytes: seq<Byte>, raw: seq<nat>)
    requires |raw| == 13 && raw == bytes
    ensures Packed(FieldsOf(raw)) == BigEndian(bytes)
  {
    hide BigEndian, Append, Horner;
    HornerIsBigEndian(bytes, 13);
    assert bytes[..13] == bytes;
    CutsHeader(bytes, raw[0], raw[1], raw[2]);
    TwelveBits(bytes, 2, raw);
    TwelveBits(bytes, 5, raw);
    TwelveBits(bytes, 8, raw);
    TwelveBits(bytes, 11, raw);
  }

  /** A 12-bit field that ends a byte begun, and one that begins the byte after next. */
  lemma TwelveBits(bytes: seq<Byte>, k: nat, raw: seq<nat>)
    requires k + 1 < |bytes| && raw == bytes
    ensures Append(Append(Horner(bytes, k), 16, raw[k] / 16), 4096, raw[k] % 16 * 256 + raw[k + 1])
         == Horner(bytes, k + 2)
    ensures k + 3 < |bytes| ==>
      Append(Horner(bytes, k + 2), 4096, raw[k + 2] * 16 + raw[k + 3] / 16)
      == Append(Horner(bytes, k + 3), 16, raw[k + 3] / 16)
  {
  }

  /** The fields are determined by the payload: two readings never share one. */
  lemma PackedIsInjective(p: Probes, q: Probes)
    requires Fits(p) && Fits(q) && Packed(p) == Packed(q)
    ensures p == q
  {
    hide Append, Header;
    var p5, q5 := Append(Header(p), 4096, p.e1), Append(Header(q), 4096, q.e1);
    var p6, q6 := Append(p5, 4096, p.e2), Append(q5, 4096, q.e2);
    var p7, q7 := Append(p6, 4096, p.e3), Append(q6, 4096, q.e3);
    var p8, q8 := Append(p7, 4096, p.f1), Append(q7, 4096, q.f1);
    var p9, q9 := Append(p8, 4096, p.f2), Append(q8, 4096, q.f2);
    var p10, q10 := Append(p9, 4096, p.f3), Append(q9, 4096, q.f3);
    AppendIsInjective(p10, q10, 4096, p.g1, q.g1);
    AppendIsInjective(p9, q9, 4096, p.f3, q.f3);
    AppendIsInjective(p8, q8, 4096, p.f2, q.f2);
    AppendIsInjective(p7, q7, 4096, p.f1, q.f1);
    AppendIsInjective(p6, q6, 4096, p.e3, q.e3);
    AppendIsInjective(p5, q5, 4096, p.e2, q.e2);
    AppendIsInjective(Header(p), Header(q), 4096, p.e1, q.e1);
    HeaderIsInjective(p, q);
  }

  lemma HeaderIsInjective(p: Probes, q: Probes)
    requires Fits(p) && Fits(q) && Header(p) == Header(q)
    ensures p.index == q.index && p.battery == q.battery
      && p.selectorE == q.selectorE && p.selectorF == q.selectorF && p.selectorG == q.selectorG
  {
  }

  lemma PackedFits(p: Probes)
    requires Fits(p)
    ensures Packed(p) < Pow(256, 13)
  {
    assert Pow(256, 13) == 0x100_0000_0000_0000_0000_0000_0000 by {
      assert Pow(256, 2) == 0x1_0000;
      assert Pow(256, 4) == 0x1_0000_0000;
      assert Pow(256, 6) == 0x1_0000_0000_0000;
      assert Pow(256, 8) == 0x1_0000_0000_0000_0000;
      assert Pow(256, 10) == 0x1_0000_0000_0000_0000_0000;
      assert Pow(256, 12) == 0x1_0000_0000_0000_0000_0000_0000;
    }
    hide Pow;
    assert Header(p) < 0x10_0000;
  }

  /** Round trip: whatever the station packs into thirteen bytes and `hexify` prints is
      recovered, field by field: the only fields that `Ingest` can find are these. */
  lemma PayloadRoundTrip(p: Probes, q: Probes)
    requires Fits(p) && Fits(q)
    ensures var payload := HexOfBytes(BytesOf(Packed(q), 13));
      && |payload| == 26 && AllHex(payload)
      && (Packed(p) == BigEndian(BytesIn(payload)) <==> p == q)
  {
    hide Packed, Fits, BytesOf, HexOfBytes, BigEndian, BytesIn, AllHex, Pow;
    PackedFits(q);
    NumberRoundTrip(Packed(q), 13);
    if Packed(p) == Packed(q) {
      PackedIsInjective(p, q);
    }
  }
}

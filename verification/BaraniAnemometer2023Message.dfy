/** The 96-bit payload of the Barani anemometer: thirteen fields cut out of twelve bytes. */
module BaraniAnemometer2023Messages {
  import opened HexParser
  import opened HexPayloads
  import opened BitFields

  /** The fields as transmitted, in the order of the payload. */
  datatype Wind = Wind(
    index: nat, battery: nat, average: nat, gust3s: nat, gust1s: nat, minimum3s: nat, deviation: nat,
    direction: nat, gustDirection: nat, directionDeviation: nat, maximumTime: nat, alarm: nat, debug: nat)

  predicate Fits(w: Wind) {
    && w.index < 256 && w.battery < 2 && w.average < 4096 && w.gust3s < 512 && w.gust1s < 256
    && w.minimum3s < 512 && w.deviation < 256 && w.direction < 512 && w.gustDirection < 512
    && w.directionDeviation < 256 && w.maximumTime < 128 && w.alarm < 2 && w.debug < 128
  }

  /** The fields one after the other, with the widths that the format documents. */
  function Packed(w: Wind): nat {
    Append(Append(Packed10(w), 2, w.alarm), 128, w.debug)
  }

  function Packed5(w: Wind): nat {
    var n1 := Append(w.index, 2, w.battery);
    var n2 := Append(n1, 4096, w.average);
    var n3 := Append(n2, 512, w.gust3s);
    var n4 := Append(n3, 256, w.gust1s);
    Append(n4, 512, w.minimum3s)
  }

  function Packed10(w: Wind): nat {
    var n6 := Append(Packed5(w), 256, w.deviation);
    var n7 := Append(n6, 512, w.direction);
    var n8 := Append(n7, 512, w.gustDirection);
    var n9 := Append(n8, 256, w.directionDeviation);
    Append(n9, 128, w.maximumTime)
  }

  /** Where the format puts each field in the 96 bits, the first one being the highest. */
  predicate AtBits(w: Wind, n: nat) {
    && w.index == Bits(n, 96, 0, 7) && w.battery == Bits(n, 96, 8, 8)
    && w.average == Bits(n, 96, 9, 20) && w.gust3s == Bits(n, 96, 21, 29)
    && w.gust1s == Bits(n, 96, 30, 37) && w.minimum3s == Bits(n, 96, 38, 46)
    && w.deviation == Bits(n, 96, 47, 54) && w.direction == Bits(n, 96, 55, 63)
    && w.gustDirection == Bits(n, 96, 64, 72) && w.directionDeviation == Bits(n, 96, 73, 80)
    && w.maximumTime == Bits(n, 96, 81, 87) && w.alarm == Bits(n, 96, 88, 88)
    && w.debug == Bits(n, 96, 89, 95)
  }

  /** The extraction of the fields from the bytes. */
  function FieldsOf(raw: seq<nat>): Wind
    requires |raw| >= 12
  {
    Wind(
      raw[0],
      raw[1] / 128,
      raw[1] % 128 * 32 + raw[2] / 8,
      raw[2] % 8 * 64 + raw[3] / 4,
      raw[3] % 4 * 64 + raw[4] / 4,
      raw[4] % 4 * 128 + raw[5] / 2,
      raw[5] % 2 * 128 + raw[6] / 2,
      raw[6] % 2 * 256 + raw[7],
      raw[8] * 2 + raw[9] / 128,
      raw[9] % 128 * 2 + raw[10] / 128,
      raw[10] % 128,
      raw[11] / 128,
      raw[11] % 128)
  }

  class BaraniAnemometer2023Message {
    var wind: Wind
    var valid: bool

    constructor ()
      ensures !valid
    {
      valid := false;
      wind := Wind(0, 0, 0, 0, 0, 0, 0, 0, 0, 0, 0, 0, 0);
    }

    /** The payload is cut into its fields: nothing is shared between two of them,
        nothing is dropped. */
    method Ingest(payload: string)
      modifies this
      ensures valid <==> |payload| == 24 && AllHex(payload)
      ensures valid ==>
        Fits(wind) && Packed(wind) == BigEndian(BytesIn(payload)) && AtBits(wind, BigEndian(BytesIn(payload)))
      ensures !valid ==> wind == old(wind)
    {
      hide Packed, Fits, AtBits, FieldsOf, BytesIn, AllHex;
      var ok := ValidateInput(payload, [24]);
      if !ok {
        valid := false;
        return;
      }
      valid := true;
      LengthOfBytes(payload);
      var raw: seq<nat> := ReadBytes(payload, 12);
      wind := FieldsOf(raw);
      CutsFit(raw);
      CutsPack(BytesIn(payload), raw);
      FieldsAtBits(wind);
    }
  }

  lemma FieldsAtBits(w: Wind)
    requires Fits(w)
    ensures AtBits(w, Packed(w))
  {
    hide Append, Bits, Pow;
    PowersOfTwo();
    FirstBits(w.index, 256, 8);
    AppendedBits(w.index, 2, w.battery, 1, 9);
    var n1 := Append(w.index, 2, w.battery);
    AppendedBits(n1, 4096, w.average, 12, 21);
    var n2 := Append(n1, 4096, w.average);
    AppendedBits(n2, 512, w.gust3s, 9, 30);
    var n3 := Append(n2, 512, w.gust3s);
    AppendedBits(n3, 256, w.gust1s, 8, 38);
    var n4 := Append(n3, 256, w.gust1s);
    AppendedBits(n4, 512, w.minimum3s, 9, 47);
    var n5 := Append(n4, 512, w.minimum3s);
    AppendedBits(n5, 256, w.deviation, 8, 55);
    var n6 := Append(n5, 256, w.deviation);
    AppendedBits(n6, 512, w.direction, 9, 64);
    var n7 := Append(n6, 512, w.direction);
    AppendedBits(n7, 512, w.gustDirection, 9, 73);
    var n8 := Append(n7, 512, w.gustDirection);
    AppendedBits(n8, 256, w.directionDeviation, 8, 81);
    var n9 := Append(n8, 256, w.directionDeviation);
    AppendedBits(n9, 128, w.maximumTime, 7, 88);
    var n10 := Append(n9, 128, w.maximumTime);
    AppendedBits(n10, 2, w.alarm, 1, 89);
    var n11 := Append(n10, 2, w.alarm);
    AppendedBits(n11, 128, w.debug, 7, 96);
  }

  lemma CutsFit(raw: seq<nat>)
    requires |raw| == 12 && forall k :: 0 <= k < 12 ==> raw[k] < 256
    ensures Fits(FieldsOf(raw))
  {
  }

  lemma CutsPack(bytes: seq<Byte>, raw: seq<nat>)
    requires |raw| == 12 && raw == bytes
    ensures Packed(FieldsOf(raw)) == BigEndian(bytes)
  {
    hide BigEndian, Append, Horner;
    HornerIsBigEndian(bytes, 12);
    assert bytes[..12] == bytes;
    HornerStart(bytes);
    HornerStep(bytes, 1);
    Continued(Horner(bytes, 1), raw[1], 2, 128, 32, raw[2] / 8);
    HornerStep(bytes, 2);
    Continued(Horner(bytes, 2), raw[2], 32, 8, 64, raw[3] / 4);
    HornerStep(bytes, 3);
    Continued(Horner(bytes, 3), raw[3], 64, 4, 64, raw[4] / 4);
    HornerStep(bytes, 4);
    Continued(Horner(bytes, 4), raw[4], 64, 4, 128, raw[5] / 2);
    HornerStep(bytes, 5);
    Continued(Horner(bytes, 5), raw[5], 128, 2, 128, raw[6] / 2);
    HornerStep(bytes, 6);
    Continued(Horner(bytes, 6), raw[6], 128, 2, 256, raw[7]);
    HornerStep(bytes, 7);
    Joined(Horner(bytes, 8), 256, raw[8], 2, raw[9] / 128);
    HornerStep(bytes, 8);
    Continued(Horner(bytes, 9), raw[9], 2, 128, 2, raw[10] / 128);
    HornerStep(bytes, 9);
    Whole(Horner(bytes, 10), raw[10], 2, 128);
    HornerStep(bytes, 10);
    Whole(Horner(bytes, 11), raw[11], 2, 128);
    HornerStep(bytes, 11);
  }

  /** The fields are determined by the payload: two readings never share one. */
  lemma PackedIsInjective(v: Wind, w: Wind)
    requires Fits(v) && Fits(w) && Packed(v) == Packed(w)
    ensures v == w
  {
    hide Append;
    AppendIsInjective(Append(Packed10(v), 2, v.alarm), Append(Packed10(w), 2, w.alarm), 128, v.debug, w.debug);
    AppendIsInjective(Packed10(v), Packed10(w), 2, v.alarm, w.alarm);
    MiddleIsInjective(v, w);
    FrontIsInjective(v, w);
  }

  lemma MiddleIsInjective(v: Wind, w: Wind)
    requires Fits(v) && Fits(w) && Packed10(v) == Packed10(w)
    ensures Packed5(v) == Packed5(w)
    ensures v.deviation == w.deviation && v.direction == w.direction && v.gustDirection == w.gustDirection
      && v.directionDeviation == w.directionDeviation && v.maximumTime == w.maximumTime
  {
  }

  lemma FrontIsInjective(v: Wind, w: Wind)
    requires Fits(v) && Fits(w) && Packed5(v) == Packed5(w)
    ensures v.index == w.index && v.battery == w.battery && v.average == w.average && v.gust3s == w.gust3s
      && v.gust1s == w.gust1s && v.minimum3s == w.minimum3s
  {
  }

  lemma PackedFits(w: Wind)
    requires Fits(w)
    ensures Packed(w) < Pow(256, 12)
  {
  }

  /** Round trip: whatever the station packs into twelve bytes and `hexify` prints is
      recovered, field by field: the only fields that `Ingest` can find are these. */
  lemma PayloadRoundTrip(v: Wind, w: Wind)
    requires Fits(v) && Fits(w)
    ensures var payload := HexOfBytes(BytesOf(Packed(w), 12));
      && |payload| == 24 && AllHex(payload)
      && (Packed(v) == BigEndian(BytesIn(payload)) <==> v == w)
  {
    hide Packed, Fits, BytesOf, HexOfBytes, BigEndian, BytesIn, AllHex, Pow;
    PackedFits(w);
    NumberRoundTrip(Packed(w), 12);
    if Packed(v) == Packed(w) {
      PackedIsInjective(v, w);
    }
  }
}

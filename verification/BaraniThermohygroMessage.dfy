/** The Barani MeteoHelix messages: ten bytes of fields, and a rain counter of eight bits
    that rolls over. */
module BaraniThermohygroMessages {
  import opened Common
  import opened HexParser
  import opened HexPayloads
  import opened BitFields

  const EXPECTED_TYPE := 1

  /** The fields as transmitted, in the order of the payload. */
  datatype Climate = Climate(
    messageType: nat, battery: nat, temperature: nat, minimum: nat, maximum: nat,
    humidity: nat, pressure: nat, radiation: nat, maxRadiation: nat, rainClicks: nat)

  /** The clicks kept by the database, with their date. */
  datatype Cached = Cached(lastUpdate: int, clicks: int)

  predicate Fits(c: Climate) {
    && c.messageType < 4 && c.battery < 32 && c.temperature < 2048 && c.minimum < 64 && c.maximum < 64
    && c.humidity < 512 && c.pressure < 16384 && c.radiation < 1024 && c.maxRadiation < 512 && c.rainClicks < 256
  }

  /** The fields one after the other, with the widths that the format documents. */
  function Packed(c: Climate): nat {
    var n1 := Append(c.messageType, 32, c.battery);
    var n2 := Append(n1, 2048, c.temperature);
    var n3 := Append(n2, 64, c.minimum);
    var n4 := Append(n3, 64, c.maximum);
    var n5 := Append(n4, 512, c.humidity);
    var n6 := Append(n5, 16384, c.pressure);
    var n7 := Append(n6, 1024, c.radiation);
    Append(Append(n7, 512, c.maxRadiation), 256, c.rainClicks)
  }

  /** The cached clicks are a reference while they are less than a day old. */
  predicate IsFresh(cached: Option<Cached>, now: int) {
    cached.Some? && cached.value.lastUpdate > now - SECONDS_PER_DAY
  }

  /** The clicks since the reference, when the counter may have rolled over once. */
  function Elapsed(clicks: int, reference: int): int {
    if clicks >= reference then clicks - reference else 256 - reference + clicks
  }

  /** Where the format puts each field in the 80 bits, the first one being the highest. */
  predicate AtBits(c: Climate, n: nat) {
    && c.messageType == Bits(n, 80, 0, 1) && c.battery == Bits(n, 80, 2, 6)
    && c.temperature == Bits(n, 80, 7, 17) && c.minimum == Bits(n, 80, 18, 23)
    && c.maximum == Bits(n, 80, 24, 29) && c.humidity == Bits(n, 80, 30, 38)
    && c.pressure == Bits(n, 80, 39, 52) && c.radiation == Bits(n, 80, 53, 62)
    && c.maxRadiation == Bits(n, 80, 63, 71) && c.rainClicks == Bits(n, 80, 72, 79)
  }

  /** The extraction of the fields from the bytes. */
  function FieldsOf(raw: seq<nat>): Climate
    requires |raw| >= 10
  {
    Climate(
      raw[0] / 64,
      raw[0] % 64 / 2,
      raw[0] % 2 * 1024 + raw[1] * 4 + raw[2] / 64,
      raw[2] % 64,
      raw[3] / 4,
      raw[3] % 4 * 128 + raw[4] / 2,
      raw[4] % 2 * 8192 + raw[5] * 32 + raw[6] / 8,
      raw[6] % 8 * 128 + raw[7] / 2,
      raw[7] % 2 * 256 + raw[8],
      raw[9])
  }

  class BaraniThermohygroMessage {
    var climate: Climate
    var time: int
    var rainfall: Option<int>
    var minTimeBetweenClicks: int
    var valid: bool

    constructor ()
      ensures !valid && rainfall.None?
    {
      climate := Climate(0, 0, 0, 0, 0, 0, 0, 0, 0, 0);
      time := 0;
      rainfall := None;
      minTimeBetweenClicks := 0;
      valid := false;
    }

    /** Eleven bytes are expected and ten are read: the last one, meant for the time
        between clicks, is left at zero. */
    method Ingest(payload: string, datetime: int, cached: Option<Cached>, now: int)
      modifies this
      ensures valid ==> |payload| == 22 && AllHex(payload) && time == datetime
      ensures |payload| == 22 && AllHex(payload) ==>
        (valid <==> BytesIn(payload)[0] / 64 == 1)
      ensures valid ==>
        && Fits(climate) && climate.messageType == 1
        && Packed(climate) == BigEndian(BytesIn(payload)[..10])
        && AtBits(climate, BigEndian(BytesIn(payload)[..10]))
        && minTimeBetweenClicks == 0
        && rainfall ==
             if cached.Some? && now - cached.value.lastUpdate < 86400
             then Some(Elapsed(climate.rainClicks, cached.value.clicks)) else old(rainfall)
    {
      hide Packed, Fits, AtBits, BytesIn, AllHex;
      var ok := ValidateInput(payload, [22]);
      if !ok {
        valid := false;
        return;
      }
      time := datetime;
      valid := true;
      LengthOfBytes(payload);
      var bytes := ReadBytes(payload, 10);
      var raw: seq<nat> := bytes + [0];
      assert raw[..10] == bytes;
      var prev: Option<int> := None;
      if cached.Some? && cached.value.lastUpdate > now - SECONDS_PER_DAY {
        prev := Some(cached.value.clicks);
      }
      if raw[0] / 64 != EXPECTED_TYPE {
        valid := false;
        return;
      }
      climate := FieldsOf(raw);
      CutsFit(raw);
      CutsPack(BytesIn(payload)[..10], raw);
      FieldsAtBits(climate);
      if prev.Some? {
        if raw[9] >= prev.value {
          rainfall := Some(raw[9] - prev.value);
        } else {
          rainfall := Some(256 - prev.value + raw[9]);
        }
      }
      minTimeBetweenClicks := raw[10];
    }

    method CacheValues(cached: Option<Cached>) returns (updated: Option<Cached>)
      ensures updated == if valid then Some(Cached(time, climate.rainClicks)) else cached
    {
      updated := cached;
      if valid {
        updated := Some(Cached(time, climate.rainClicks));
      }
    }
  }

  lemma FieldsAtBits(c: Climate)
    requires Fits(c)
    ensures AtBits(c, Packed(c))
  {
    hide Append, Bits, Pow;
    PowersOfTwo();
    FirstBits(c.messageType, 4, 2);
    AppendedBits(c.messageType, 32, c.battery, 5, 7);
    var n1 := Append(c.messageType, 32, c.battery);
    AppendedBits(n1, 2048, c.temperature, 11, 18);
    var n2 := Append(n1, 2048, c.temperature);
    AppendedBits(n2, 64, c.minimum, 6, 24);
    var n3 := Append(n2, 64, c.minimum);
    AppendedBits(n3, 64, c.maximum, 6, 30);
    var n4 := Append(n3, 64, c.maximum);
    AppendedBits(n4, 512, c.humidity, 9, 39);
    var n5 := Append(n4, 512, c.humidity);
    AppendedBits(n5, 16384, c.pressure, 14, 53);
    var n6 := Append(n5, 16384, c.pressure);
    AppendedBits(n6, 1024, c.radiation, 10, 63);
    var n7 := Append(n6, 1024, c.radiation);
    AppendedBits(n7, 512, c.maxRadiation, 9, 72);
    var n8 := Append(n7, 512, c.maxRadiation);
    AppendedBits(n8, 256, c.rainClicks, 8, 80);
  }

  lemma CutsFit(raw: seq<nat>)
    requires |raw| >= 10 && forall k :: 0 <= k < 10 ==> raw[k] < 256
    ensures Fits(FieldsOf(raw))
  {
  }

  lemma FirstByteParts(b: nat)
    ensures b / 64 * 32 + b % 64 / 2 == b / 2
  {
  }

  lemma CutsPack(bytes: seq<Byte>, raw: seq<nat>)
    requires |bytes| == 10 && |raw| >= 10 && raw[..10] == bytes
    ensures Packed(FieldsOf(raw)) == BigEndian(bytes)
  {
    assert forall k :: 0 <= k < 10 ==> raw[k] == raw[..10][k] == bytes[k];
    FirstByteParts(raw[0]);
    PlainAppend(raw[0]);
    hide BigEndian, Append, Horner;
    HornerIsBigEndian(bytes, 10);
    assert bytes[..10] == bytes;
    var h := Horner(bytes, 1);
    HornerStart(bytes);
    HornerStep(bytes, 1);
    Continued(0, raw[0], 128, 2, 1024, raw[1] * 4 + raw[2] / 64);
    Joined(h, 256, raw[1], 4, raw[2] / 64);
    HornerStep(bytes, 2);
    Whole(Horner(bytes, 2), raw[2], 4, 64);
    HornerStep(bytes, 3);
    Continued(Horner(bytes, 3), raw[3], 64, 4, 128, raw[4] / 2);
    HornerStep(bytes, 4);
    Continued(Horner(bytes, 4), raw[4], 128, 2, 8192, raw[5] * 32 + raw[6] / 8);
    Joined(Horner(bytes, 5), 256, raw[5], 32, raw[6] / 8);
    HornerStep(bytes, 5);
    HornerStep(bytes, 6);
    Continued(Horner(bytes, 6), raw[6], 32, 8, 128, raw[7] / 2);
    HornerStep(bytes, 7);
    Continued(Horner(bytes, 7), raw[7], 128, 2, 256, raw[8]);
    HornerStep(bytes, 8);
    HornerStep(bytes, 9);
  }

  lemma PlainAppend(b: nat)
    ensures Append(0, 128, b / 2) == b / 2 && Append(0, 256, b) == b
    ensures Append(b / 64, 32, b % 64 / 2) == b / 64 * 32 + b % 64 / 2
  {
  }

  // ------------------------------------------------------------------ the rain counter

  /** A message sent when the gauge had counted so many clicks in all: it transmits the
      low eight bits. `now` is when it is processed. */
  datatype Sent = Sent(total: nat, time: int, now: int)

  predicate InOrder(start: nat, sent: seq<Sent>) {
    forall i :: 0 <= i < |sent| ==> Before(start, sent, i) <= sent[i].total
  }

  function Before(start: nat, sent: seq<Sent>, i: int): nat
    requires 0 <= i <= |sent|
  {
    if i == 0 then start else sent[i - 1].total
  }

  function CacheBefore(cached: Cached, sent: seq<Sent>, i: int): Cached
    requires 0 <= i <= |sent|
  {
    if i == 0 then cached else Cached(sent[i - 1].time, sent[i - 1].total % 256)
  }

  /** What one message counts: nothing without a fresh reference. */
  function Counted(cached: Cached, sent: seq<Sent>, i: int): int
    requires 0 <= i < |sent|
  {
    var c := CacheBefore(cached, sent, i);
    if IsFresh(Some(c), sent[i].now) then Elapsed(sent[i].total % 256, c.clicks) else 0
  }

  /** What the messages up to the nth count, each one ingested then cached. */
  function Sum(cached: Cached, sent: seq<Sent>, n: nat): int
    requires n <= |sent|
  {
    if n == 0 then 0 else Sum(cached, sent, n - 1) + Counted(cached, sent, n - 1)
  }

  /** The difference of two readings is the true number of clicks modulo 256. */
  lemma ElapsedIsModulo(before: nat, after: nat)
    requires before <= after
    ensures Elapsed(after % 256, before % 256) == (after - before) % 256
  {
    var d := after % 256 - before % 256;
    assert (after - before) % 256 == (if d < 0 then d + 256 else d);
  }

  predicate CountsAll(start: nat, cached: Cached, sent: seq<Sent>, i: int)
    requires 0 <= i < |sent|
  {
    var d := sent[i].total - Before(start, sent, i);
    d == 0 || (d < 256 && sent[i].now - CacheBefore(cached, sent, i).lastUpdate < 86400)
  }

  lemma CountedIs(start: nat, cached: Cached, sent: seq<Sent>, i: nat)
    requires i < |sent| && InOrder(start, sent) && cached.clicks == start % 256
    ensures var d := sent[i].total - Before(start, sent, i);
      && 0 <= Counted(cached, sent, i) <= d
      && (Counted(cached, sent, i) == d <==> CountsAll(start, cached, sent, i))
  {
    ElapsedIsModulo(Before(start, sent, i), sent[i].total);
  }

  lemma {:induction false} SumIsBelow(start: nat, cached: Cached, sent: seq<Sent>, n: nat)
    requires n <= |sent| && InOrder(start, sent) && cached.clicks == start % 256
    ensures Sum(cached, sent, n) <= Before(start, sent, n) - start
    ensures Sum(cached, sent, n) == Before(start, sent, n) - start <==>
      forall i :: 0 <= i < n ==> CountsAll(start, cached, sent, i)
  {
    if n == 0 {
    } else {
      SumIsBelow(start, cached, sent, n - 1);
      CountedIs(start, cached, sent, n - 1);
      hide CountsAll, Counted, InOrder;
    }
  }

  /** Over any number of messages, across the roll-overs, the clicks counted are the
      clicks of the gauge if and only if every message that brings some was processed
      less than a day after the previous one and brings fewer than 256. They are never
      more. */
  lemma RollingCounterIsExactIff(start: nat, cached: Cached, sent: seq<Sent>)
    requires InOrder(start, sent) && cached.clicks == start % 256
    ensures Sum(cached, sent, |sent|) <= Before(start, sent, |sent|) - start
    ensures Sum(cached, sent, |sent|) == Before(start, sent, |sent|) - start <==>
      forall i :: 0 <= i < |sent| ==> CountsAll(start, cached, sent, i)
  {
    SumIsBelow(start, cached, sent, |sent|);
  }
}

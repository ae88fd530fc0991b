/** What the NB-IoT payloads are for: each reading decoded as it was sent, and each click
    of the rain gauge counted exactly once. */
module RainfallAccounting {
  import opened Common
  import opened HexParser
  import opened HexPayloads
  import opened ThplnbiotMessages

  // ------------------------------------------------------------------- the size check

  /** The check of the length lets exactly these through: whole data points after the
      header and the footer, or one of three short lengths, where the unsigned
      subtraction wraps around. */
  lemma ValidLengths(payload: string)
    requires |payload| < SIZE_MODULUS && AllHex(payload)
    ensures Validates(payload) <==>
      || (|payload| >= 92 && (|payload| - 92) % 28 == 0)
      || |payload| == 20 || |payload| == 48 || |payload| == 76
  {
    hide AllHex;
    var d := |payload| - 92;
    if d < 0 {
      assert d % SIZE_MODULUS == d + SIZE_MODULUS;
    }
  }

  /** With a data point at least, the number of points is the one that the length holds, if
      and only if that number is an integer of 32 bits. */
  lemma CountIsExactIff(payload: string)
    requires 120 <= |payload| < SIZE_MODULUS
    ensures PointCount(payload) == (|payload| - 120) / 28 <==> (|payload| - 120) / 28 < 0x8000_0000
  {
    var n := (|payload| - 120) / 28;
    assert n % 0x1_0000_0000 <= n;
  }

  /** The lengths that pass without holding a data point stand for hundreds of millions of
      points, each of which, but for the newest two, is all zeros at the epoch. */
  lemma ShortPayloads(payload: string)
    requires Validates(payload) && |payload| < 120
    ensures |payload| == 20 || |payload| == 48 || |payload| == 76 || |payload| == 92
    ensures PointCount(payload) == 613566753 + if |payload| == 20 then 0 else if |payload| == 48 then 1 else 2
    ensures forall k: nat :: k >= 2 ==> TransmittedPoint(payload, k) == PointOf(Raw(0, 0, 0, 0, 0))
  {
    hide PointCount, TransmittedPoint, AllHex;
    ValidLengths(payload);
    ShortCount(payload);
    ZerosFromTheThird(payload);
  }

  lemma ShortCount(payload: string)
    requires |payload| == 20 || |payload| == 48 || |payload| == 76 || |payload| == 92
    ensures PointCount(payload) == 613566753 + if |payload| == 20 then 0 else if |payload| == 48 then 1 else 2
  {
    hide Narrowed;
    var size := |payload| - 120;
    assert size % SIZE_MODULUS == size + SIZE_MODULUS;
    var points := (size + SIZE_MODULUS) / DATA_POINT_LENGTH;
    assert points == 0x924_9249_2492_4921 + if size == -100 then 0 else if size == -72 then 1 else 2;
    NarrowedCount(points);
  }

  lemma NarrowedCount(points: nat)
    requires 0x924_9249_2492_4921 <= points <= 0x924_9249_2492_4923
    ensures Narrowed(points) == 613566753 + (points - 0x924_9249_2492_4921)
  {
    FitIsRemainder(points, 0x924_9249, 613566753 + (points - 0x924_9249_2492_4921), 0x1_0000_0000);
  }

  lemma ZerosFromTheThird(payload: string)
    requires |payload| <= 112
    ensures forall k: nat :: k >= 2 ==> TransmittedPoint(payload, k) == PointOf(Raw(0, 0, 0, 0, 0))
  {
    hide RawAt, PointOf;
    forall k: nat | k >= 2 ensures TransmittedPoint(payload, k) == PointOf(Raw(0, 0, 0, 0, 0)) {
      ZerosBeyond(payload, HEADER_LENGTH + DATA_POINT_LENGTH * (k + 1));
    }
  }

  lemma ZerosBeyond(payload: string, at: nat)
    requires at >= |payload|
    ensures RawAt(payload, at) == Raw(0, 0, 0, 0, 0)
  {
    NothingThere(payload, at, 4, 0x1_0000);
    NothingThere(payload, at + 4, 4, 0x1_0000);
    NothingThere(payload, at + 8, 8, 0x1_0000_0000);
    NothingThere(payload, at + 16, 4, 0x1_0000);
    NothingThere(payload, at + 20, 8, 0x1_0000_0000);
  }

  lemma NothingThere(payload: string, at: nat, length: nat, modulus: nat)
    requires at >= |payload| && modulus > 0
    ensures Field(payload, at, length, modulus) == 0
  {
    assert Upto(Beyond(payload, at), length) == [];
  }

  // ---------------------------------------------------------------------- the round trip

  predicate FitsRaw(r: Raw) {
    && r.temperature < 0x1_0000 && r.humidity < 0x1_0000 && r.count < 0x1_0000_0000
    && r.intensity < 0x1_0000 && r.timestamp < 0x1_0000_0000
  }

  function EncodePoint(r: Raw): (bytes: seq<Byte>)
    ensures |bytes| == 14
  {
    BytesOf(r.temperature, 2) + BytesOf(r.humidity, 2) + BytesOf(r.count, 4)
    + BytesOf(r.intensity, 2) + BytesOf(r.timestamp, 4)
  }

  /** The points in chronological order are sent newest first. */
  function EncodePoints(points: seq<Raw>): (bytes: seq<Byte>)
    ensures |bytes| == 14 * |points|
  {
    if points == [] then []
    else EncodePoint(points[|points| - 1]) + EncodePoints(points[..|points| - 1])
  }

  /** A packet: an eight-byte identifier, version, battery, signal and mode, a point that
      is not used, the points, and an authentication code of 32 bytes. */
  datatype Packet = Packet(
    imei: seq<Byte>, version: nat, battery: nat, signal: Byte, mode: Byte,
    skipped: seq<Byte>, points: seq<Raw>, hmac: seq<Byte>)

  predicate FitsPacket(p: Packet) {
    && |p.imei| == 8 && |p.skipped| == 14 && |p.hmac| == 32
    && p.version < 0x1_0000 && p.battery < 0x1_0000
    && forall i :: 0 <= i < |p.points| ==> FitsRaw(p.points[i])
  }

  function HeadOf(p: Packet): seq<Byte> {
    p.imei + BytesOf(p.version, 2) + BytesOf(p.battery, 2) + [p.signal, p.mode] + p.skipped
  }

  function Encode(p: Packet): seq<Byte> {
    HeadOf(p) + EncodePoints(p.points) + p.hmac
  }

  lemma Widths()
    ensures Pow(256, 2) == 0x1_0000 && Pow(256, 4) == 0x1_0000_0000
  {
    assert Pow(256, 1) == 256;
    assert Pow(256, 3) == 0x100_0000;
  }

  lemma SliceOfSlice(bytes: seq<Byte>, at: nat, length: nat, i: nat, j: nat)
    requires i <= j <= length && at + length <= |bytes|
    ensures bytes[at..at + length][i..j] == bytes[at + i..at + j]
  {
    var a, b := bytes[at..at + length], bytes[at + i..at + j];
    assert |a[i..j]| == |b|;
    forall k | 0 <= k < j - i ensures a[i..j][k] == b[k] {
      assert a[i..j][k] == a[i + k] && b[k] == bytes[at + i + k];
    }
  }

  lemma EncodedFields(r: Raw)
    ensures var e := EncodePoint(r);
      && e[0..2] == BytesOf(r.temperature, 2) && e[2..4] == BytesOf(r.humidity, 2) && e[4..8] == BytesOf(r.count, 4)
      && e[8..10] == BytesOf(r.intensity, 2) && e[10..14] == BytesOf(r.timestamp, 4)
  {
    hide BytesOf;
    assert EncodePoint(r)[10..14] == BytesOf(r.timestamp, 4);
  }

  lemma PartOfPoint(bytes: seq<Byte>, at: nat, point: seq<Byte>, i: nat, j: nat, part: seq<Byte>)
    requires at + 14 <= |bytes| && bytes[at..at + 14] == point
    requires i <= j <= 14 && point[i..j] == part
    ensures bytes[at + i..at + j] == part
  {
    SliceOfSlice(bytes, at, 14, i, j);
  }

  lemma PartsOfPoint(bytes: seq<Byte>, at: nat, r: Raw)
    requires at + 14 <= |bytes| && bytes[at..at + 14] == EncodePoint(r)
    ensures bytes[at..at + 2] == BytesOf(r.temperature, 2) && bytes[at + 2..at + 4] == BytesOf(r.humidity, 2)
    ensures bytes[at + 4..at + 8] == BytesOf(r.count, 4) && bytes[at + 8..at + 10] == BytesOf(r.intensity, 2)
    ensures bytes[at + 10..at + 14] == BytesOf(r.timestamp, 4)
  {
    hide BytesOf, EncodePoint;
    EncodedFields(r);
    var point := EncodePoint(r);
    PartOfPoint(bytes, at, point, 0, 2, BytesOf(r.temperature, 2));
    PartOfPoint(bytes, at, point, 2, 4, BytesOf(r.humidity, 2));
    PartOfPoint(bytes, at, point, 4, 8, BytesOf(r.count, 4));
    PartOfPoint(bytes, at, point, 8, 10, BytesOf(r.intensity, 2));
    PartOfPoint(bytes, at, point, 10, 14, BytesOf(r.timestamp, 4));
  }

  lemma PointOfBytes(bytes: seq<Byte>, at: nat, r: Raw)
    requires at + 14 <= |bytes| && bytes[at..at + 14] == EncodePoint(r) && FitsRaw(r)
    ensures RawAt(HexOfBytes(bytes), 2 * at) == r
  {
    hide BytesOf, Field, Pow, HexOfBytes, EncodePoint;
    Widths();
    PartsOfPoint(bytes, at, r);
    FieldOfBytes(bytes, at, r.temperature, 2, 0x1_0000);
    FieldOfBytes(bytes, at + 2, r.humidity, 2, 0x1_0000);
    FieldOfBytes(bytes, at + 4, r.count, 4, 0x1_0000_0000);
    FieldOfBytes(bytes, at + 8, r.intensity, 2, 0x1_0000);
    FieldOfBytes(bytes, at + 10, r.timestamp, 4, 0x1_0000_0000);
  }

  lemma {:induction false} PointInside(points: seq<Raw>, i: nat)
    requires i < |points|
    ensures var at := 14 * (|points| - 1 - i);
      EncodePoints(points)[at..at + 14] == EncodePoint(points[i])
  {
    hide EncodePoint;
    var n := |points| - 1;
    if i == n {
    } else {
      PointInside(points[..n], i);
      var at := 14 * (n - 1 - i);
      assert EncodePoints(points)[14 + at..14 + at + 14] == EncodePoints(points[..n])[at..at + 14];
    }
  }

  lemma PointOfPacket(p: Packet, i: nat)
    requires FitsPacket(p) && i < |p.points|
    ensures |HexOfBytes(Encode(p))| == 120 + 28 * |p.points|
    ensures RawAt(HexOfBytes(Encode(p)), 56 + 28 * (|p.points| - 1 - i)) == p.points[i]
  {
    hide EncodePoint, EncodePoints, RawAt, HexOfBytes, BytesOf, FitsRaw;
    var bytes, k := Encode(p), 14 * (|p.points| - 1 - i);
    var encoded := EncodePoints(p.points);
    assert |HeadOf(p)| == 28;
    assert bytes[28..28 + |encoded|] == encoded;
    SliceOfSlice(bytes, 28, |encoded|, k, k + 14);
    PointInside(p.points, i);
    assert FitsRaw(p.points[i]);
    PointOfBytes(bytes, 28 + k, p.points[i]);
  }

  lemma BatteryOfPacket(p: Packet)
    requires FitsPacket(p)
    ensures Field(HexOfBytes(Encode(p)), 20, 4, 0x1_0000) == p.battery
  {
    hide EncodePoints, Field, HexOfBytes, BytesOf, Pow;
    var bytes := Encode(p);
    assert bytes[10..12] == BytesOf(p.battery, 2);
    Widths();
    FieldOfBytes(bytes, 10, p.battery, 2, 0x1_0000);
  }

  /** Round trip: a packet printed by `hexify` and decoded gives back its points, all of
      them, in chronological order, and its battery level, for any number of points. */
  lemma PacketRoundTrip(p: Packet)
    requires FitsPacket(p) && |p.points| < 0x8000_0000
    ensures var payload := HexOfBytes(Encode(p));
      && Validates(payload) && PointCount(payload) == |p.points|
      && Points(payload) == seq(|p.points|, i requires 0 <= i < |p.points| => PointOf(p.points[i]))
      && Field(payload, 20, 4, 0x1_0000) == p.battery
  {
    hide RawAt, PointOf, Field, AllHex, EncodePoint, EncodePoints, FitsPacket, HexOfBytes, PointCount;
    var payload, n := HexOfBytes(Encode(p)), |p.points|;
    LengthOfPacket(p);
    HexOfBytesIsHex(Encode(p));
    ValidLengths(payload);
    CountIsExactIff(payload);
    BatteryOfPacket(p);
    forall i | 0 <= i < n ensures TransmittedPoint(payload, n - 1 - i) == PointOf(p.points[i]) {
      PointOfPacket(p, i);
    }
  }

  lemma LengthOfPacket(p: Packet)
    requires FitsPacket(p)
    ensures |HexOfBytes(Encode(p))| == 120 + 28 * |p.points|
  {
    hide EncodePoints, HexOfBytes, BytesOf;
  }

  /** What the sensor measures, in tenths; without probe it has neither temperature nor
      humidity. */
  datatype Reading = Reading(probe: Option<(int, nat)>, count: nat, intensity: Option<int>, time: nat)

  predicate Measurable(x: Reading) {
    && (x.probe.Some? ==> -0x8000 <= x.probe.value.0 < 0x8000 && x.probe.value.1 < 0x1_0000
                          && x.probe.value != (-1, 0xFFFF))
    && (x.intensity.Some? ==> 0 <= x.intensity.value < 0x1_0000 && x.intensity.value != 0x7FFF)
    && x.count < 0x1_0000_0000 && x.time < 0x1_0000_0000
  }

  /** Temperatures are sent in two's complement, missing values as all ones. */
  function RawOf(x: Reading): Raw
    requires Measurable(x)
  {
    Raw(if x.probe.Some? then x.probe.value.0 % 0x1_0000 else 0xFFFF,
        if x.probe.Some? then x.probe.value.1 else 0xFFFF,
        x.count, if x.intensity.Some? then x.intensity.value else 0x7FFF, x.time)
  }

  /** Every reading that can be sent is decoded to the values measured. */
  lemma ReadingRoundTrip(x: Reading)
    requires Measurable(x)
    ensures FitsRaw(RawOf(x))
    ensures var p := PointOf(RawOf(x));
      && p.valid && p.time == x.time && p.count == x.count && p.intensity == x.intensity
      && p.rainfall.None? && p.battery.None?
      && p.temperature == (if x.probe.Some? then Some(x.probe.value.0) else None)
      && p.humidity == if x.probe.Some? then Some(x.probe.value.1) else None
  {
    if x.probe.Some? {
      var t := x.probe.value.0;
      assert t % 0x1_0000 == if t < 0 then t + 0x1_0000 else t;
    }
  }

  /** No two readings are decoded to the same point. */
  lemma DecodingIsInjective(r: Raw, q: Raw)
    requires FitsRaw(r) && FitsRaw(q) && PointOf(r) == PointOf(q)
    ensures r == q
  {
  }

  // --------------------------------------------------------------------- exactly once

  function Rain(p: DataPoint): int {
    if p.rainfall.Some? then p.rainfall.value else 0
  }

  /** The clicks counted in some points. */
  function Clicks(points: seq<DataPoint>): int {
    if points == [] then 0 else Rain(points[0]) + Clicks(points[1..])
  }

  /** The readings of a counter that only goes up, over time. */
  type Meter = int -> nat

  ghost predicate Monotone(meter: Meter) {
    && (forall t :: meter(t) < 0x1_0000_0000)
    && forall t, u :: t <= u ==> meter(t) <= meter(u)
  }

  /** Points as they are decoded: valid, in chronological order, not accounted yet, each
      with the reading of the counter at its time. */
  ghost predicate IsBatch(meter: Meter, points: seq<DataPoint>) {
    && (forall i :: 0 <= i < |points| ==>
          points[i].valid && points[i].rainfall.None? && points[i].count == meter(points[i].time))
    && forall i, j :: 0 <= i < j < |points| ==> points[i].time <= points[j].time
  }

  /** A packet whose points are readings of the counter, in order, decodes to a batch. */
  lemma PacketIsBatch(meter: Meter, p: Packet)
    requires FitsPacket(p) && |p.points| < 0x8000_0000
    requires forall i :: 0 <= i < |p.points| ==> p.points[i].count == meter(p.points[i].timestamp)
    requires forall i, j :: 0 <= i < j < |p.points| ==> p.points[i].timestamp <= p.points[j].timestamp
    ensures var payload := HexOfBytes(Encode(p));
      PointCount(payload) >= 0 && IsBatch(meter, WithBattery(Points(payload), p.battery))
  {
    hide FitsPacket, Encode, Points, HexOfBytes, Validates, Field;
    PacketRoundTrip(p);
  }

  ghost predicate IsReference(meter: Meter, cached: Cached) {
    var count := meter(cached.lastUpdate);
    cached.clicks == if count < 0x8000_0000 then count else count - 0x1_0000_0000
  }

  function Max(a: int, b: int): int {
    if a < b then b else a
  }

  lemma SignedRoundTrip(count: nat)
    requires count < 0x1_0000_0000
    ensures Signed(count) == (if count < 0x8000_0000 then count else count - 0x1_0000_0000)
    ensures Unsigned(Signed(count)) == count
  {
  }

  function LastTime(points: seq<DataPoint>, otherwise: int): int {
    if points == [] then otherwise else points[|points| - 1].time
  }

  lemma ClicksStep(points: seq<DataPoint>, lastUpdate: int, clicks: int)
    requires points != []
    ensures var p := points[0];
      Clicks(Account(points, lastUpdate, clicks)) ==
        if Skips(p, lastUpdate) then Rain(p) + Clicks(Account(points[1..], lastUpdate, clicks))
        else Rain(Accounted(p, clicks)) + Clicks(Account(points[1..], p.time, Signed(p.count)))
  {
    hide Accounted, Skips, Signed;
    var p, a := points[0], Account(points, lastUpdate, clicks);
    assert a[1..] ==
      if Skips(p, lastUpdate) then Account(points[1..], lastUpdate, clicks)
      else Account(points[1..], p.time, Signed(p.count));
  }

  lemma BatchTail(meter: Meter, points: seq<DataPoint>, otherwise: int)
    requires IsBatch(meter, points) && points != []
    ensures IsBatch(meter, points[1..])
    ensures var p := points[0];
      p.valid && p.rainfall.None? && p.count == meter(p.time) && p.time <= LastTime(points, otherwise)
    ensures LastTime(points, otherwise) == LastTime(points[1..], points[0].time)
  {
  }

  /** One payload counts the clicks between the reference and its last point, or none
      when that point is not newer. */
  lemma {:induction false} BatchClicks(meter: Meter, points: seq<DataPoint>, cached: Cached)
    requires Monotone(meter) && IsBatch(meter, points) && IsReference(meter, cached)
    ensures Clicks(Account(points, cached.lastUpdate, cached.clicks))
         == meter(Max(LastTime(points, cached.lastUpdate), cached.lastUpdate)) - meter(cached.lastUpdate)
  {
    hide IsBatch, Signed, Unsigned;
    if points == [] {
    } else {
      var p, t := points[0], cached.lastUpdate;
      SignedRoundTrip(meter(t));
      ClicksStep(points, t, cached.clicks);
      BatchTail(meter, points, t);
      hide Account, Clicks;
      if Skips(p, t) {
        BatchClicks(meter, points[1..], cached);
      } else {
        assert meter(t) <= meter(p.time);
        SignedRoundTrip(p.count);
        BatchClicks(meter, points[1..], Cached(p.time, Signed(p.count)));
      }
    }
  }

  /** Points already accounted for add nothing. */
  lemma {:induction false} ReplayAddsNothing(meter: Meter, points: seq<DataPoint>, cached: Cached)
    requires IsBatch(meter, points) && forall i :: 0 <= i < |points| ==> points[i].time <= cached.lastUpdate
    ensures Account(points, cached.lastUpdate, cached.clicks) == points
  {
    if points == [] {
    } else {
      ReplayAddsNothing(meter, points[1..], cached);
    }
  }

  /** The count from which a point counts: that of the point before it, or the reference when
      that point is not newer. */
  function CountBefore(points: seq<DataPoint>, i: nat, lastUpdate: int, clicks: int): int
    requires i < |points|
  {
    if i > 0 && points[i - 1].time > lastUpdate then points[i - 1].count
    else if clicks < 0 then clicks + 0x1_0000_0000 else clicks
  }

  /** Point by point, in chronological order: nothing for a point that is not newer than the
      reference; for a newer one the difference with the count before it, or nothing when
      the counter has gone down. In every case its count is where the next one starts. */
  lemma {:induction false} RainfallOf(points: seq<DataPoint>, lastUpdate: int, clicks: int, i: nat)
    requires i < |points|
    requires forall k :: 0 <= k < |points| ==> points[k].valid && points[k].count < 0x1_0000_0000
    requires forall j, k :: 0 <= j < k < |points| ==> points[j].time < points[k].time
    ensures var p, before := points[i], CountBefore(points, i, lastUpdate, clicks);
      Account(points, lastUpdate, clicks)[i] ==
        if p.time > lastUpdate && p.count >= before then p.(rainfall := Some(p.count - before)) else p
  {
    var p, rest := points[0], points[1..];
    if i == 0 {
    } else if Skips(p, lastUpdate) {
      RainfallOf(rest, lastUpdate, clicks, i - 1);
    } else {
      RainfallOf(rest, p.time, Signed(p.count), i - 1);
    }
  }

  // ---------------------------------------------- payload after payload, through the cache

  function AfterBatch(cached: Cached, points: seq<DataPoint>): Cached {
    if points == [] then cached
    else
      var p := points[|points| - 1];
      Cached(p.time, if p.count < 0x8000_0000 then p.count else p.count - 0x1_0000_0000)
  }

  function CacheAfter(cached: Cached, batches: seq<seq<DataPoint>>): Cached {
    if batches == [] then cached
    else AfterBatch(CacheAfter(cached, batches[..|batches| - 1]), batches[|batches| - 1])
  }

  /** The clicks counted over all the payloads, each one ingested then cached. */
  function Total(cached: Cached, batches: seq<seq<DataPoint>>): int {
    if batches == [] then 0
    else
      var n := |batches| - 1;
      var c := CacheAfter(cached, batches[..n]);
      Total(cached, batches[..n]) + Clicks(Account(batches[n], c.lastUpdate, c.clicks))
  }

  /** The clicks that the cache forgets when a payload ends before the previous one. */
  function Forgotten(meter: Meter, cached: Cached, batches: seq<seq<DataPoint>>): nat
    requires Monotone(meter)
  {
    if batches == [] then 0
    else
      var n := |batches| - 1;
      var c := CacheAfter(cached, batches[..n]);
      var last := LastTime(batches[n], c.lastUpdate);
      Forgotten(meter, cached, batches[..n])
      + if last < c.lastUpdate
        then (assert meter(last) <= meter(c.lastUpdate); meter(c.lastUpdate) - meter(last)) else 0
  }

  /** After `ingest` and `cacheValues`, the cache holds the last point of the payload. */
  lemma CacheAfterPayload(meter: Meter, points: seq<DataPoint>, cached: Cached)
    requires IsBatch(meter, points)
    ensures NextCache(Account(points, cached.lastUpdate, cached.clicks), Some(cached))
         == Some(AfterBatch(cached, points))
  {
    if points != [] {
      AccountKeeps(points, cached.lastUpdate, cached.clicks, |points| - 1);
    }
  }

  /** The pass gives rainfall and nothing else. */
  lemma {:induction false} AccountKeeps(points: seq<DataPoint>, lastUpdate: int, clicks: int, i: nat)
    requires i < |points|
    ensures var a := Account(points, lastUpdate, clicks)[i]; a == points[i].(rainfall := a.rainfall)
  {
    var p := points[0];
    if i == 0 {
    } else if Skips(p, lastUpdate) {
      AccountKeeps(points[1..], lastUpdate, clicks, i - 1);
    } else {
      AccountKeeps(points[1..], p.time, Signed(p.count), i - 1);
    }
  }

  /** The exact account over any sequence of payloads: the clicks between the first
      reference and the last one, plus those forgotten and so counted again. */
  lemma {:induction false} ClicksAccounted(meter: Meter, cached: Cached, batches: seq<seq<DataPoint>>)
    requires Monotone(meter) && IsReference(meter, cached)
    requires forall i :: 0 <= i < |batches| ==> IsBatch(meter, batches[i])
    ensures var c := CacheAfter(cached, batches);
      && IsReference(meter, c)
      && Total(cached, batches) == meter(c.lastUpdate) - meter(cached.lastUpdate) + Forgotten(meter, cached, batches)
  {
    if batches == [] {
    } else {
      hide Account, Clicks, Signed, Monotone;
      var n := |batches| - 1;
      ClicksAccounted(meter, cached, batches[..n]);
      assert IsBatch(meter, batches[n]);
      BatchClicks(meter, batches[n], CacheAfter(cached, batches[..n]));
    }
  }

  /** A payload that ends with the count cached before it, or with a greater one. */
  predicate KeepsCount(meter: Meter, cached: Cached, batches: seq<seq<DataPoint>>, i: int)
    requires 0 <= i < |batches|
  {
    var c := CacheAfter(cached, batches[..i]);
    meter(LastTime(batches[i], c.lastUpdate)) >= meter(c.lastUpdate)
  }

  /** Exactly once: the total is the difference of the counter if and only if no payload
      ends with a smaller count than was cached before it. */
  lemma {:induction false} ExactlyOnceIff(meter: Meter, cached: Cached, batches: seq<seq<DataPoint>>)
    requires Monotone(meter) && IsReference(meter, cached)
    requires forall i :: 0 <= i < |batches| ==> IsBatch(meter, batches[i])
    ensures Total(cached, batches) == meter(CacheAfter(cached, batches).lastUpdate) - meter(cached.lastUpdate) <==>
      forall i :: 0 <= i < |batches| ==> KeepsCount(meter, cached, batches, i)
  {
    ClicksAccounted(meter, cached, batches);
    NothingForgottenIff(meter, cached, batches);
  }

  lemma {:induction false} NothingForgottenIff(meter: Meter, cached: Cached, batches: seq<seq<DataPoint>>)
    requires Monotone(meter)
    ensures Forgotten(meter, cached, batches) == 0 <==>
      forall i :: 0 <= i < |batches| ==> KeepsCount(meter, cached, batches, i)
  {
    hide KeepsCount, Monotone, Forgotten;
    if batches != [] {
      var n := |batches| - 1;
      NothingForgottenIff(meter, cached, batches[..n]);
      ForgottenStep(meter, cached, batches);
      forall i | 0 <= i < n
        ensures KeepsCount(meter, cached, batches[..n], i) == KeepsCount(meter, cached, batches, i)
      {
        KeepsPrefix(meter, cached, batches, n, i);
      }
    } else {
      NothingForgottenYet(meter, cached);
    }
  }

  lemma NothingForgottenYet(meter: Meter, cached: Cached)
    requires Monotone(meter)
    ensures Forgotten(meter, cached, []) == 0
  {
  }

  lemma KeepsPrefix(meter: Meter, cached: Cached, batches: seq<seq<DataPoint>>, n: int, i: int)
    requires 0 <= i < n <= |batches|
    ensures KeepsCount(meter, cached, batches[..n], i) == KeepsCount(meter, cached, batches, i)
  {
    assert batches[..n][..i] == batches[..i];
  }

  lemma ForgottenStep(meter: Meter, cached: Cached, batches: seq<seq<DataPoint>>)
    requires Monotone(meter) && batches != []
    ensures var n := |batches| - 1;
      Forgotten(meter, cached, batches) == 0 <==>
        Forgotten(meter, cached, batches[..n]) == 0 && KeepsCount(meter, cached, batches, n)
  {
  }

  /** End to end: what ingesting a packet leaves is its points in chronological order, with
      the values sent and the battery level on the last one. */
  lemma PacketIngested(p: Packet, cache: Option<Cached>, i: nat)
    requires FitsPacket(p) && |p.points| < 0x8000_0000 && i < |p.points|
    ensures var payload := HexOfBytes(Encode(p));
      && Validates(payload) && PointCount(payload) == |p.points| == |Ingested(payload, cache)|
      && var q, r := Ingested(payload, cache)[i], p.points[i];
      var nothing := r.temperature == 0xFFFF && r.humidity == 0xFFFF;
      && q.valid && q.time == r.timestamp && q.count == r.count
      && q.temperature == (if nothing then None
                           else Some(if r.temperature < 0x8000 then r.temperature else r.temperature - 0x1_0000))
      && q.humidity == (if nothing then None else Some(r.humidity))
      && q.intensity == (if r.intensity == 0x7FFF then None else Some(r.intensity))
      && q.battery == (if i == |p.points| - 1 then Some(p.battery) else None)
      && (cache.None? ==> q.rainfall.None?)
  {
    hide FitsPacket, Encode, HexOfBytes, Validates, PointCount, Points, Field, Account;
    var payload := HexOfBytes(Encode(p));
    PacketRoundTrip(p);
    if cache.Some? {
      AccountKeeps(WithBattery(Points(payload), p.battery), cache.value.lastUpdate, cache.value.clicks, i);
    }
  }

  /** The rainfall that the same packet brings: the clicks since the point before, or since
      the reference for the first point newer than it, and none when the counter has gone
      down in between, nor for points that are not newer. */
  lemma PacketRainfall(p: Packet, cached: Cached, i: nat)
    requires FitsPacket(p) && |p.points| < 0x8000_0000 && i < |p.points|
    requires forall j, k :: 0 <= j < k < |p.points| ==> p.points[j].timestamp < p.points[k].timestamp
    ensures var payload, r := HexOfBytes(Encode(p)), p.points[i];
      var before :=
        if i > 0 && p.points[i - 1].timestamp > cached.lastUpdate then p.points[i - 1].count
        else if cached.clicks < 0 then cached.clicks + 0x1_0000_0000 else cached.clicks;
      && PointCount(payload) == |p.points| == |Ingested(payload, Some(cached))|
      && Ingested(payload, Some(cached))[i].rainfall ==
           if r.timestamp > cached.lastUpdate && r.count >= before then Some(r.count - before) else None
  {
    hide FitsPacket, Encode, HexOfBytes, Validates, PointCount, Points, Field, Account, WithBattery;
    PacketRoundTrip(p);
    DecodedCounts(p);
    RainfallOf(WithBattery(Points(HexOfBytes(Encode(p))), p.battery), cached.lastUpdate, cached.clicks, i);
  }

  lemma DecodedCounts(p: Packet)
    requires FitsPacket(p) && |p.points| < 0x8000_0000
    ensures PointCount(HexOfBytes(Encode(p))) == |p.points|
    ensures var points := WithBattery(Points(HexOfBytes(Encode(p))), p.battery);
      && |points| == |p.points|
      && forall k :: 0 <= k < |points| ==>
        && points[k].valid && points[k].time == p.points[k].timestamp && points[k].rainfall.None?
        && points[k].count == p.points[k].count < 0x1_0000_0000
  {
    assert forall k :: 0 <= k < |p.points| ==> p.points[k].count < 0x1_0000_0000;
    hide FitsPacket, Encode, HexOfBytes, Validates, PointCount, Points, Field;
    PacketRoundTrip(p);
  }

  /** A short payload replaces the reference by a count of zero at the epoch, from which the
      next payload counts everything again. */
  lemma ShortPayloadResetsTheCache(payload: string, cache: Option<Cached>)
    requires Validates(payload) && |payload| < 76
    ensures PointCount(payload) >= 0 && NextCache(Ingested(payload, cache), cache) == Some(Cached(0, 0))
  {
    ShortPayloads(payload);
    ZerosBeyond(payload, HEADER_LENGTH + DATA_POINT_LENGTH);
    hide PointCount, RawAt, Field, Account, Validates;
    var points := WithBattery(Points(payload), Field(payload, 20, 4, 0x1_0000));
    var last := |points| - 1;
    PointIsTransmitted(payload, last);
    assert points[last].valid && points[last].time == 0 && points[last].count == 0;
    if cache.Some? {
      AccountKeeps(points, cache.value.lastUpdate, cache.value.clicks, last);
    }
  }
}

/** The NB-IoT payloads of the Dragino thermohygrometer and rain gauge: decoding, newest
    point first, and the accounting of rainfall in clicks over overlapping payloads. */
module ThplnbiotMessages {
  import opened Common
  import opened HexParser
  import opened HexPayloads

  const HEADER_LENGTH := 28
  const FOOTER_LENGTH := 64
  const DATA_POINT_LENGTH := 28
  const SIZE_MODULUS := 0x1_0000_0000_0000_0000

  /** The fields of a data point as transmitted. */
  datatype Raw = Raw(temperature: nat, humidity: nat, count: nat, intensity: nat, timestamp: nat)

  /** Temperatures, humidities and intensities in tenths, rainfall in clicks; None where
      the original has not-a-number. */
  datatype DataPoint = DataPoint(
    valid: bool, time: int, temperature: Option<int>, humidity: Option<int>, count: nat,
    rainfall: Option<int>, intensity: Option<int>, battery: Option<nat>)

  /** The clicks kept by the database, as a signed 32-bit integer, with their date. */
  datatype Cached = Cached(lastUpdate: int, clicks: int)

  // -------------------------------------------------------------------------- decoding

  function PointOf(r: Raw): DataPoint {
    var nothing := r.temperature == 0xFFFF && r.humidity == 0xFFFF;
    DataPoint(
      true, r.timestamp,
      if nothing then None
      else if r.temperature < 0x8000 then Some(r.temperature)
      else Some(r.temperature - 0x1_0000),
      if nothing then None else Some(r.humidity),
      r.count, None, if r.intensity == 0x7FFF then None else Some(r.intensity), None)
  }

  /** Beyond the end of the payload, the stream gives no digit and the fields are zero. */
  function RawAt(payload: string, at: nat): Raw {
    Raw(Field(payload, at, 4, 0x1_0000), Field(payload, at + 4, 4, 0x1_0000), Field(payload, at + 8, 8, 0x1_0000_0000),
        Field(payload, at + 16, 4, 0x1_0000), Field(payload, at + 20, 8, 0x1_0000_0000))
  }

  /** The length is checked in unsigned arithmetic, which wraps around. */
  predicate Validates(payload: string) {
    && (|payload| - HEADER_LENGTH - FOOTER_LENGTH) % SIZE_MODULUS % DATA_POINT_LENGTH == 0
    && AllHex(payload)
  }

  /** A size narrowed to a signed integer of 32 bits. */
  function Narrowed(size: nat): int {
    Signed(size % 0x1_0000_0000)
  }

  /** The number of points, which wraps around twice: first the size, then the integer. */
  function PointCount(payload: string): int {
    Narrowed((|payload| - HEADER_LENGTH - FOOTER_LENGTH - DATA_POINT_LENGTH) % SIZE_MODULUS / DATA_POINT_LENGTH)
  }

  /** The transmitted point number k, the newest being number 0: the first one of the
      payload, taken between two scheduled times, is not counted. */
  function TransmittedPoint(payload: string, k: nat): DataPoint {
    PointOf(RawAt(payload, HEADER_LENGTH + DATA_POINT_LENGTH * (k + 1)))
  }

  /** The points in chronological order, before any accounting. */
  function Points(payload: string): (points: seq<DataPoint>)
    requires PointCount(payload) >= 0
  {
    var n := PointCount(payload);
    seq(n, i requires 0 <= i < n => TransmittedPoint(payload, n - 1 - i))
  }

  lemma PointsAreTransmitted(payload: string)
    requires PointCount(payload) >= 0
    ensures |Points(payload)| == PointCount(payload)
  {
    hide PointCount;
  }

  lemma PointIsTransmitted(payload: string, i: nat)
    requires i < PointCount(payload)
    ensures var at := HEADER_LENGTH + DATA_POINT_LENGTH * (PointCount(payload) - i);
      i < |Points(payload)| && Points(payload)[i] == PointOf(RawAt(payload, at))
  {
    hide PointOf, RawAt, PointCount;
    var n := PointCount(payload);
    assert HEADER_LENGTH + DATA_POINT_LENGTH * (n - 1 - i + 1) == HEADER_LENGTH + DATA_POINT_LENGTH * (n - i);
    assert Points(payload)[i] == TransmittedPoint(payload, n - 1 - i);
  }

  predicate FilledFrom(obs: seq<DataPoint>, all: seq<DataPoint>, i: nat) {
    |obs| == |all| && i <= |all| && obs[i..] == all[i..]
  }

  lemma NothingFilled(obs: seq<DataPoint>, all: seq<DataPoint>)
    requires |obs| == |all|
    ensures FilledFrom(obs, all, |all|)
  {
  }

  lemma FillOne(obs: seq<DataPoint>, all: seq<DataPoint>, i: nat, p: DataPoint)
    requires FilledFrom(obs, all, i + 1) && p == all[i]
    ensures FilledFrom(obs[i := p], all, i)
  {
    FrontOf(obs[i := p], i);
    FrontOf(all, i);
    assert obs[i := p][i + 1..] == obs[i + 1..];
  }

  lemma AllFilled(obs: seq<DataPoint>, all: seq<DataPoint>)
    requires FilledFrom(obs, all, 0)
    ensures obs == all
  {
    assert obs[0..] == obs && all[0..] == all;
  }

  lemma FrontOf(points: seq<DataPoint>, i: nat)
    requires i < |points|
    ensures points[i..] == [points[i]] + points[i + 1..]
  {
  }

  function WithBattery(points: seq<DataPoint>, battery: nat): seq<DataPoint> {
    if points == [] then [] else points[|points| - 1 := points[|points| - 1].(battery := Some(battery))]
  }

  // ------------------------------------------------------------------------ accounting

  /** Conversions between the unsigned count and the signed value in the cache. */
  function Signed(count: nat): int {
    if count < 0x8000_0000 then count else count - 0x1_0000_0000
  }

  function Unsigned(clicks: int): int {
    if clicks < 0 then clicks + 0x1_0000_0000 else clicks
  }

  predicate Skips(p: DataPoint, lastUpdate: int) {
    !p.valid || p.time <= lastUpdate
  }

  function Accounted(p: DataPoint, clicks: int): DataPoint {
    if p.count >= Unsigned(clicks) then p.(rainfall := Some(p.count - Unsigned(clicks))) else p
  }

  /** The pass over the points, in chronological order, from a reference. */
  function Account(points: seq<DataPoint>, lastUpdate: int, clicks: int): (accounted: seq<DataPoint>)
    ensures |accounted| == |points|
  {
    if points == [] then []
    else if Skips(points[0], lastUpdate) then [points[0]] + Account(points[1..], lastUpdate, clicks)
    else [Accounted(points[0], clicks)] + Account(points[1..], points[0].time, Signed(points[0].count))
  }

  lemma AccountStep(p: DataPoint, rest: seq<DataPoint>, lastUpdate: int, clicks: int)
    ensures Account([p] + rest, lastUpdate, clicks) ==
      if Skips(p, lastUpdate) then [p] + Account(rest, lastUpdate, clicks)
      else [Accounted(p, clicks)] + Account(rest, p.time, Signed(p.count))
  {
    hide Skips, Accounted, Signed;
    assert ([p] + rest)[1..] == rest;
  }

  function Ingested(payload: string, cache: Option<Cached>): seq<DataPoint>
    requires PointCount(payload) >= 0
  {
    var points := WithBattery(Points(payload), Field(payload, 20, 4, 0x1_0000));
    if cache.None? then points else Account(points, cache.value.lastUpdate, cache.value.clicks)
  }

  /** What is cached after a payload: the last valid point. */
  function NextCache(points: seq<DataPoint>, cache: Option<Cached>): Option<Cached> {
    if points == [] then cache
    else
      var p := points[|points| - 1];
      if p.valid then Some(Cached(p.time, Signed(p.count))) else NextCache(points[..|points| - 1], cache)
  }

  // ------------------------------------------------------------------------- the message

  class ThplnbiotMessage {
    var obs: seq<DataPoint>
    var valid: bool

    constructor ()
      ensures obs == [] && !valid
    {
      obs := [];
      valid := false;
    }

    method ValidateInput(payload: string) returns (ok: bool)
      ensures ok == Validates(payload)
    {
      if (|payload| - HEADER_LENGTH - FOOTER_LENGTH) % SIZE_MODULUS % DATA_POINT_LENGTH != 0 {
        return false;
      }
      for i := 0 to |payload|
        invariant forall k :: 0 <= k < i ==> IsHexDigit(payload[k])
      {
        if !IsHexDigit(payload[i]) {
          return false;
        }
      }
      ok := true;
    }

    method ReadPoint(stream: InputStream, ghost payload: string, ghost at: nat) returns (p: DataPoint)
      requires stream.Valid() && AllHex(payload) && stream.Remaining() == Beyond(payload, at)
      modifies stream
      ensures stream.Valid() && stream.Remaining() == Beyond(payload, at + DATA_POINT_LENGTH)
      ensures p == PointOf(RawAt(payload, at))
    {
      hide Field, AllHex, Beyond;
      var temp := ReadField(stream, 4, 0x1_0000, payload, at);
      var hum := ReadField(stream, 4, 0x1_0000, payload, at + 4);
      var count := ReadField(stream, 8, 0x1_0000_0000, payload, at + 8);
      var intensity := ReadField(stream, 4, 0x1_0000, payload, at + 16);
      var timestamp := ReadField(stream, 8, 0x1_0000_0000, payload, at + 20);
      var nothing := temp == 0xFFFF && hum == 0xFFFF;
      var degrees: int := if temp < 0x8000 then temp else temp - 0x1_0000;
      p := DataPoint(true, timestamp, if nothing then None else Some(degrees), if nothing then None else Some(hum),
                     count, None, if intensity == 0x7FFF then None else Some(intensity), None);
    }

    /** Only the battery level is kept from the header. */
    method ReadHeader(stream: InputStream, ghost payload: string) returns (battery: nat)
      requires stream.Valid() && AllHex(payload) && stream.Remaining() == payload
      modifies stream
      ensures stream.Valid() && stream.Remaining() == Beyond(payload, HEADER_LENGTH + DATA_POINT_LENGTH)
      ensures battery == Field(payload, 20, 4, 0x1_0000)
    {
      hide Field, AllHex, Beyond;
      NoPrefix(payload);
      SkipField(stream, 16, payload, 0);
      var version := ReadField(stream, 4, 0x1_0000, payload, 16);
      battery := ReadField(stream, 4, 0x1_0000, payload, 20);
      var signal := ReadField(stream, 2, 0x1_0000, payload, 24);
      var mode := ReadField(stream, 2, 0x1_0000, payload, 26);
      SkipField(stream, DATA_POINT_LENGTH, payload, 28);
    }

    /** Fills the points from the last one to the first one. */
    method FillPoints(stream: InputStream, ghost payload: string, n: nat)
      requires n == PointCount(payload) && AllHex(payload)
      requires stream.Valid() && stream.Remaining() == Beyond(payload, HEADER_LENGTH + DATA_POINT_LENGTH)
      modifies this`obs, stream
      ensures obs == Points(payload)
    {
      hide AllHex, PointOf, RawAt, Points, PointCount, Beyond, FilledFrom;
      obs := seq(n, i => DataPoint(false, 0, None, None, 0, None, None, None));
      ghost var all := Points(payload);
      ghost var at := HEADER_LENGTH + DATA_POINT_LENGTH;
      PointsAreTransmitted(payload);
      NothingFilled(obs, all);
      var i: int := n - 1;
      while i >= 0
        invariant -1 <= i < n && |obs| == n && at == HEADER_LENGTH + DATA_POINT_LENGTH * (n - i)
        invariant stream.Valid() && stream.Remaining() == Beyond(payload, at)
        invariant FilledFrom(obs, all, i + 1)
      {
        PointIsTransmitted(payload, i);
        var p := ReadPoint(stream, payload, at);
        FillOne(obs, all, i, p);
        at := at + DATA_POINT_LENGTH;
        obs := obs[i := p];
        i := i - 1;
      }
      AllFilled(obs, all);
    }

    method ReadPoints(payload: string)
      requires Validates(payload) && PointCount(payload) >= 0
      modifies this`obs
      ensures obs == WithBattery(Points(payload), Field(payload, 20, 4, 0x1_0000))
    {
      hide Field, AllHex, Points, PointCount;
      var stream := new InputStream(payload);
      var battery := ReadHeader(stream, payload);
      FillPoints(stream, payload, PointCount(payload));
      if obs != [] {
        obs := obs[|obs| - 1 := obs[|obs| - 1].(battery := Some(battery))];
      }
    }

    method ComputeRainfall(cached: Cached)
      modifies this`obs
      ensures obs == Account(old(obs), cached.lastUpdate, cached.clicks)
    {
      hide Account, Signed, Unsigned;
      var lastUpdate, previousClicks := cached.lastUpdate, cached.clicks;
      ghost var all := Account(obs, lastUpdate, previousClicks);
      assert obs[..0] + all == all && obs[0..] == obs;
      var i := 0;
      while i < |obs|
        invariant i <= |obs|
        invariant obs[..i] + Account(obs[i..], lastUpdate, previousClicks) == all
      {
        var p := obs[i];
        ghost var before, rest := obs[..i], obs[i + 1..];
        FrontOf(obs, i);
        AccountStep(p, rest, lastUpdate, previousClicks);
        if p.valid && p.time > lastUpdate {
          if p.count >= Unsigned(previousClicks) {
            obs := obs[i := p.(rainfall := Some(p.count - Unsigned(previousClicks)))];
          }
          previousClicks := Signed(p.count);
          lastUpdate := p.time;
        }
        assert obs[..i + 1] == before + [obs[i]] && obs[i + 1..] == rest;
        assert before + ([obs[i]] + Account(rest, lastUpdate, previousClicks)) == all;
        i := i + 1;
      }
      assert obs[i..] == [] && obs[..i] == obs;
      assert Account([], lastUpdate, previousClicks) == [];
    }

    /** `cache` is what the database answers when asked for the last clicks. A negative
        number of points is refused by the vector, with an exception. */
    method Ingest(payload: string, cache: Option<Cached>) returns (thrown: bool)
      modifies this
      ensures thrown <==> Validates(payload) && PointCount(payload) < 0
      ensures obs == if Validates(payload) && !thrown then Ingested(payload, cache) else old(obs)
      ensures valid == (old(valid) && Validates(payload))
    {
      hide PointCount, Points, Field, AllHex;
      var ok := ValidateInput(payload);
      if !ok {
        valid := false;
        return false;
      }
      if PointCount(payload) < 0 {
        return true;
      }
      thrown := false;
      ReadPoints(payload);
      if cache.Some? {
        ComputeRainfall(cache.value);
      }
    }

    method CacheValues(cache: Option<Cached>) returns (updated: Option<Cached>)
      ensures updated == NextCache(obs, cache)
    {
      var i := |obs|;
      assert obs[..i] == obs;
      while i > 0
        invariant 0 <= i <= |obs|
        invariant NextCache(obs[..i], cache) == NextCache(obs, cache)
      {
        i := i - 1;
        assert obs[..i + 1][..i] == obs[..i];
        if obs[i].valid {
          return Some(Cached(obs[i].time, Signed(obs[i].count)));
        }
      }
      updated := cache;
    }
  }
}

/** How instants travel between the program and the stations: the archive request
    of the VantagePro2, the date fields of its archive records and the 32-bit
    timestamp of Weatherlink, for stations whose zone is a fixed offset. */
module Timestamps {
  import opened Calendar
  import opened Common
  import opened Crc
  import opened CrcProofs

  const MINUTES_PER_DAY := 1440

  /** Days between the POSIX epoch and 2000-01-01. */
  const DAYS_TO_2000 := 10957

  /** First instant, in station time, that seven bits of year cannot hold. */
  const END_OF_2127 := (DAYS_TO_2000 + 46751) * SECONDS_PER_DAY

  // ---------------------------------------------------- conversions of TimeOffseter

  /** Local time of an instant in a zone that is `offset` minutes ahead of UTC. */
  function ToLocal(time: int, offset: int): int {
    time + 60 * offset
  }

  function FromLocal(day: int, month: int, year: int, hour: int, minute: int, offset: int): int {
    (DAYS_TO_2000 + DayNumber(Civil(year, month, day))) * SECONDS_PER_DAY
      + 3600 * hour + 60 * minute - 60 * offset
  }

  predicate Representable(time: int, offset: int) {
    DAYS_TO_2000 * SECONDS_PER_DAY <= ToLocal(time, offset) < END_OF_2127
  }

  // ----------------------------------------------------------------- the encodings

  datatype Request = Request(date: int, time: int)

  function LocalDay(time: int, offset: int): int {
    ToLocal(time, offset) / SECONDS_PER_DAY - DAYS_TO_2000
  }

  function MinuteOfDay(time: int, offset: int): int {
    ToLocal(time, offset) % SECONDS_PER_DAY / 60
  }

  function DateWord(c: Civil): int {
    ((c.year - 2000) * 512 + c.month * 32 + c.day) % 0x1_0000
  }

  function TimeWord(minute: int): int {
    (minute / 60 * 100 + minute % 60) % 0x1_0000
  }

  /** The `date` and `time` words of `ArchiveRequestParams`, 16 bits each. */
  function ArchiveRequest(time: int, offset: int): Request
    requires LocalDay(time, offset) >= 0
  {
    Request(DateWord(CivilOf(LocalDay(time, offset))), TimeWord(MinuteOfDay(time, offset)))
  }

  /** `getTimestamp` of a record: day in the low 5 bits of the date word, month in
      the next 4, year in the high 7; hours and minutes in decimal. */
  function RecordTimestamp(date: int, time: int, offset: int): int {
    FromLocal(date % 32, date / 32 % 16, date / 512 + 2000, time / 100, time % 100, offset)
  }

  function Packed(c: Civil, minute: int): int {
    ((c.year - 2000) * 0x200_0000 + c.month * 0x20_0000 + c.day * 0x1_0000
      + minute / 60 * 100 + minute % 60) % 0x1_0000_0000
  }

  /** The 32-bit timestamp of the Weatherlink archive query. */
  function WeatherlinkTimestamp(time: int, offset: int): int
    requires LocalDay(time, offset) >= 0
  {
    Packed(CivilOf(LocalDay(time, offset)), MinuteOfDay(time, offset))
  }

  // ------------------------------------------------------------------ the round trip

  lemma {:induction false} LeapCycles(k: nat)
    requires k <= 32
    ensures DaysBeforeYear(2000 + 4 * k) == 1461 * k - (if k > 25 then 1 else 0)
  {
    if k == 0 {
    } else {
      LeapCycles(k - 1);
      var y := 2000 + 4 * (k - 1);
      assert DaysBeforeYear(y + 2) == DaysBeforeYear(y) + DaysInYear(y) + DaysInYear(y + 1);
      assert DaysBeforeYear(y + 4) == DaysBeforeYear(y + 2) + DaysInYear(y + 2) + DaysInYear(y + 3);
    }
  }

  lemma YearFitsSevenBits(n: nat)
    requires n < 46751
    ensures IsDate(CivilOf(n)) && DayNumber(CivilOf(n)) == n && CivilOf(n).year < 2128
  {
    CivilFromCorrect(2000, n);
    LeapCycles(32);
    if CivilOf(n).year > 2128 {
      YearsGrow(2128, CivilOf(n).year);
    }
  }

  lemma LocalParts(time: int, offset: int)
    requires Representable(time, offset)
    ensures 0 <= LocalDay(time, offset) < 46751
    ensures 0 <= MinuteOfDay(time, offset) < MINUTES_PER_DAY
  {
  }

  lemma UnpackDate(c: Civil)
    requires IsDate(c) && c.year < 2128
    ensures var w := DateWord(c);
      && w == (c.year - 2000) * 512 + c.month * 32 + c.day && 0 <= w < 0x1_0000
      && w % 32 == c.day && w / 32 % 16 == c.month && w / 512 + 2000 == c.year
  {
  }

  /** A date before 2000, such as the epoch, is read as the same day 128 years later. */
  lemma EarlierDatesWrap(c: Civil)
    requires 1872 <= c.year < 2000 && 1 <= c.month <= 12 && 1 <= c.day <= 31
    ensures var w := DateWord(c);
      0 <= w < 0x1_0000 && w % 32 == c.day && w / 32 % 16 == c.month && w / 512 + 2000 == c.year + 128
  {
    var w := (c.year - 2000 + 128) * 512 + c.month * 32 + c.day;
    assert (c.year - 2000) * 512 + c.month * 32 + c.day == w - 0x1_0000;
  }

  lemma UnpackTime(minute: int)
    requires 0 <= minute < MINUTES_PER_DAY
    ensures var w := TimeWord(minute);
      0 <= w < 0x1_0000 && w / 100 == minute / 60 && w % 100 == minute % 60
  {
  }

  lemma FloorToMinute(time: int, offset: int)
    ensures (DAYS_TO_2000 + LocalDay(time, offset)) * SECONDS_PER_DAY + 60 * MinuteOfDay(time, offset)
         - 60 * offset == time / 60 * 60
  {
  }

  lemma FromLocalMinute(c: Civil, minute: int, offset: int)
    ensures FromLocal(c.day, c.month, c.year, minute / 60, minute % 60, offset)
         == (DAYS_TO_2000 + DayNumber(c)) * SECONDS_PER_DAY + 60 * minute - 60 * offset
  {
  }

  /** What the words of a record stand for, apart from how they are cut: year, month and day
      weigh 512, 32 and 1, hour and minute 100 and 1, and the day is counted from 1970-01-01
      in years that begin in March. */
  lemma RecordStandsFor(c: Civil, hour: int, minute: int, offset: int)
    requires IsDate(c) && c.year < 2128 && 0 <= hour < 24 && 0 <= minute < 60
    ensures var date, time := (c.year - 2000) * 512 + c.month * 32 + c.day, hour * 100 + minute;
      var y, m := if c.month <= 2 then c.year - 1 else c.year, (c.month + 9) % 12;
      var day := 365 * y + y / 4 - y / 100 + y / 400 + (153 * m + 2) / 5 + c.day - 1 - 719468;
      && 0 <= date < 0x1_0000 && 0 <= time < 0x1_0000
      && RecordTimestamp(date, time, offset) == 86400 * day + 3600 * hour + 60 * (minute - offset)
  {
    hide IsDate, FromLocal, DateWord;
    UnpackDate(c);
    assert (hour * 100 + minute) / 100 == hour && (hour * 100 + minute) % 100 == minute;
    LocalInClosedForm(c, hour, minute, offset);
  }

  lemma LocalInClosedForm(c: Civil, hour: int, minute: int, offset: int)
    requires IsDate(c)
    ensures var y, m := if c.month <= 2 then c.year - 1 else c.year, (c.month + 9) % 12;
      var day := 365 * y + y / 4 - y / 100 + y / 400 + (153 * m + 2) / 5 + c.day - 1 - 719468;
      FromLocal(c.day, c.month, c.year, hour, minute, offset) == 86400 * day + 3600 * hour + 60 * (minute - offset)
  {
    hide IsDate, DayNumber;
    DaysInClosedForm(c);
  }

  /** A record stamped with the words of a request stands for the requested instant,
      floored to the minute. */
  lemma RequestRoundTrip(time: int, offset: int)
    requires Representable(time, offset)
    ensures LocalDay(time, offset) >= 0
    ensures var r := ArchiveRequest(time, offset);
      && 0 <= r.date < 0x1_0000 && 0 <= r.time < 0x1_0000
      && RecordTimestamp(r.date, r.time, offset) == time / 60 * 60
  {
    LocalParts(time, offset);
    hide CivilOf, DayNumber, IsDate, LocalDay, MinuteOfDay, DateWord, TimeWord, FromLocal;
    var c, minute := CivilOf(LocalDay(time, offset)), MinuteOfDay(time, offset);
    YearFitsSevenBits(LocalDay(time, offset));
    UnpackDate(c);
    UnpackTime(minute);
    FloorToMinute(time, offset);
    FromLocalMinute(c, minute, offset);
  }

  lemma PackedIsTwoWords(c: Civil, minute: int)
    requires IsDate(c) && c.year < 2128 && 0 <= minute < MINUTES_PER_DAY
    ensures Packed(c, minute) == DateWord(c) * 0x1_0000 + TimeWord(minute)
    ensures 0 <= TimeWord(minute) < 0x1_0000
  {
  }

  /** Weatherlink's timestamp is the same two words side by side. */
  lemma WeatherlinkIsRequest(time: int, offset: int)
    requires Representable(time, offset)
    ensures LocalDay(time, offset) >= 0
    ensures var r := ArchiveRequest(time, offset);
      WeatherlinkTimestamp(time, offset) == r.date * 0x1_0000 + r.time
  {
    LocalParts(time, offset);
    hide CivilOf, DayNumber, IsDate, LocalDay, MinuteOfDay, DateWord, TimeWord, Packed;
    YearFitsSevenBits(LocalDay(time, offset));
    PackedIsTwoWords(CivilOf(LocalDay(time, offset)), MinuteOfDay(time, offset));
  }

  lemma DateWordMonotone(a: Civil, b: Civil)
    requires IsDate(a) && IsDate(b) && Before(a, b) && a.year < 2128 && b.year < 2128
    ensures DateWord(a) < DateWord(b)
  {
  }

  lemma TimeWordMonotone(m: int, n: int)
    requires 0 <= m < n < MINUTES_PER_DAY
    ensures TimeWord(m) < TimeWord(n)
  {
  }

  lemma MinuteOrder(t: int, u: int, offset: int)
    ensures t / 60 < u / 60 <==>
      (LocalDay(t, offset) < LocalDay(u, offset)
       || (LocalDay(t, offset) == LocalDay(u, offset) && MinuteOfDay(t, offset) < MinuteOfDay(u, offset)))
    ensures t / 60 == u / 60 <==>
      (LocalDay(t, offset) == LocalDay(u, offset) && MinuteOfDay(t, offset) == MinuteOfDay(u, offset))
  {
    FloorToMinute(t, offset);
    FloorToMinute(u, offset);
  }

  lemma PackedMonotone(a: Civil, m: int, b: Civil, n: int)
    requires IsDate(a) && IsDate(b) && a.year < 2128 && b.year < 2128
    requires 0 <= m < MINUTES_PER_DAY && 0 <= n < MINUTES_PER_DAY
    requires Before(a, b) || (a == b && m < n)
    ensures Packed(a, m) < Packed(b, n)
  {
    hide IsDate, Before, DateWord, TimeWord, Packed;
    PackedIsTwoWords(a, m);
    PackedIsTwoWords(b, n);
    if Before(a, b) {
      DateWordMonotone(a, b);
    } else {
      TimeWordMonotone(m, n);
    }
  }

  lemma EarlierPacksLower(t: int, u: int, offset: int)
    requires Representable(t, offset) && Representable(u, offset)
    requires t / 60 < u / 60
    ensures LocalDay(t, offset) >= 0 && LocalDay(u, offset) >= 0
    ensures WeatherlinkTimestamp(t, offset) < WeatherlinkTimestamp(u, offset)
  {
    LocalParts(t, offset);
    LocalParts(u, offset);
    MinuteOrder(t, u, offset);
    hide CivilOf, DayNumber, IsDate, Before, LocalDay, MinuteOfDay, Packed;
    var d, e := LocalDay(t, offset), LocalDay(u, offset);
    YearFitsSevenBits(d);
    YearFitsSevenBits(e);
    CalendarBijection(d, CivilOf(e));
    PackedMonotone(CivilOf(d), MinuteOfDay(t, offset), CivilOf(e), MinuteOfDay(u, offset));
  }

  /** Integer order of the packed timestamps is chronological order, minute by minute. */
  lemma WeatherlinkOrder(t: int, u: int, offset: int)
    requires Representable(t, offset) && Representable(u, offset)
    ensures LocalDay(t, offset) >= 0 && LocalDay(u, offset) >= 0
    ensures WeatherlinkTimestamp(t, offset) < WeatherlinkTimestamp(u, offset) <==> t / 60 < u / 60
  {
    LocalParts(t, offset);
    LocalParts(u, offset);
    MinuteOrder(t, u, offset);
    hide CivilOf, LocalDay, MinuteOfDay, Packed;
    if t / 60 < u / 60 {
      EarlierPacksLower(t, u, offset);
    } else if u / 60 < t / 60 {
      EarlierPacksLower(u, t, offset);
    }
  }

  // ------------------------------------------------------------------- on the wire

  function ValueOf(b: bv8): (n: int)
    ensures 0 <= n < 256
  {
    b as int
  }

  /** The byte of a value, counted up from zero. */
  function ByteOf(n: int): (b: bv8)
    requires 0 <= n < 256
    ensures ValueOf(b) == n
  {
    if n == 0 then 0
    else
      OneMore(ByteOf(n - 1));
      ByteOf(n - 1) + 1
  }

  lemma OneMore(b: bv8)
    requires b != 255
    ensures ValueOf(b + 1) == ValueOf(b) + 1
  {
  }

  /** A 16-bit field of a packed structure, low byte first. */
  function LittleEndian(w: int): seq<bv8>
    requires 0 <= w < 0x1_0000
  {
    [ByteOf(w % 256), ByteOf(w / 256)]
  }

  function WordAt(bytes: seq<bv8>, i: nat): (w: int)
    requires i + 1 < |bytes|
    ensures 0 <= w < 0x1_0000
  {
    ValueOf(bytes[i]) + 256 * ValueOf(bytes[i + 1])
  }

  /** The six bytes that `buildArchiveRequestParams` prepares. */
  function RequestBytes(time: int, offset: int): seq<bv8>
    requires Representable(time, offset)
  {
    LocalParts(time, offset);
    var r := ArchiveRequest(time, offset);
    Sealed(LittleEndian(r.date) + LittleEndian(r.time))
  }

  lemma WordRoundTrip(w: int)
    requires 0 <= w < 0x1_0000
    ensures WordAt(LittleEndian(w), 0) == w
  {
    hide ByteOf, ValueOf;
  }

  /** Two words sealed with their check, and read again. */
  lemma WordsOnTheWire(date: int, time: int)
    requires 0 <= date < 0x1_0000 && 0 <= time < 0x1_0000
    ensures var b := Sealed(LittleEndian(date) + LittleEndian(time));
      |b| == 6 && Validates(b) && WordAt(b, 0) == date && WordAt(b, 2) == time
  {
    hide CrcOf, Validates, HighByte, LowByte, ByteOf, ValueOf;
    var p := LittleEndian(date) + LittleEndian(time);
    var check := CrcBytes(CrcOf(p));
    assert Sealed(p) == p + [check[0], check[1]];
    ValidIffSealed(p, check[0], check[1]);
    WordRoundTrip(date);
    WordRoundTrip(time);
  }

  lemma WordsFit(time: int, offset: int)
    requires Representable(time, offset)
    ensures LocalDay(time, offset) >= 0
    ensures var r := ArchiveRequest(time, offset);
      0 <= r.date < 0x1_0000 && 0 <= r.time < 0x1_0000
  {
    LocalParts(time, offset);
    hide CivilOf, LocalDay, MinuteOfDay;
  }

  /** The request on the wire carries a valid check, and its first four bytes, read
      as the head of a record, give back the instant floored to the minute. */
  lemma RequestOnTheWire(time: int, offset: int)
    requires Representable(time, offset)
    ensures var b := RequestBytes(time, offset);
      && |b| == 6
      && Validates(b)
      && RecordTimestamp(WordAt(b, 0), WordAt(b, 2), offset) == time / 60 * 60
  {
    hide RecordTimestamp, Validates, ArchiveRequest, LocalDay, Representable, Sealed, LittleEndian, WordAt;
    WordsFit(time, offset);
    RequestRoundTrip(time, offset);
    var r := ArchiveRequest(time, offset);
    WordsOnTheWire(r.date, r.time);
  }
}

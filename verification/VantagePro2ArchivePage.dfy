/** One page of five archive records: which records are kept, and how storing a
    page moves the timestamp of the most recent record seen. */
module VantagePro2ArchivePages {
  import opened Common
  import opened Crc
  import opened CrcProofs
  import opened Timestamps

  const POINTS_PER_PAGE := 5
  const POINT_SIZE := 52
  const PAGE_SIZE := 267

  /** A record of the archive. `dash` and `blank` tell that its first four bytes
      are all ones or all zeros; `time` is what its date and time words stand for. */
  datatype DataPoint = DataPoint(dash: bool, blank: bool, time: int, body: seq<bv8>)

  datatype PageBuffer = PageBuffer(valid: bool, points: seq<DataPoint>)

  /** What the database answers while a page is stored: `refused[i]` when the
      insertion of record i fails, `batchOk` for the final grouped insertion. */
  datatype Database = Database(refused: set<int>, batchOk: bool)

  // ------------------------------------------------------------- the page on the wire

  function PointAt(bytes: seq<bv8>, i: nat, offset: int): DataPoint
    requires |bytes| == PAGE_SIZE && i < POINTS_PER_PAGE
  {
    var start := 1 + POINT_SIZE * i;
    var date, time := WordAt(bytes, start), WordAt(bytes, start + 2);
    DataPoint(date == 0xffff && time == 0xffff, date == 0 && time == 0,
              RecordTimestamp(date, time, offset), bytes[start..start + POINT_SIZE])
  }

  /** The 267 bytes of a page: sequence number, five records, padding and check. */
  function ReadPage(bytes: seq<bv8>, offset: int): PageBuffer
    requires |bytes| == PAGE_SIZE
  {
    PageBuffer(Validates(bytes),
               seq(POINTS_PER_PAGE, i requires 0 <= i < POINTS_PER_PAGE => PointAt(bytes, i, offset)))
  }

  predicate IsPage(records: seq<seq<bv8>>, padding: seq<bv8>) {
    |records| == 5 && |padding| == 4 && forall k :: 0 <= k < 5 ==> |records[k]| == 52
  }

  /** A page as a station sends it: sequence number, five records, four bytes of padding. */
  function PageBytes(sequence: bv8, records: seq<seq<bv8>>, padding: seq<bv8>): (bytes: seq<bv8>)
    requires IsPage(records, padding)
    ensures |bytes| == 267
  {
    hide CrcOf, HighByte, LowByte;
    Sealed([sequence] + (records[0] + records[1] + records[2] + records[3] + records[4]) + padding)
  }

  /** The two words are those of a request for an instant. */
  predicate IsRequest(t: int, offset: int, date: int, time: int) {
    Representable(t, offset) && LocalDay(t, offset) >= 0 && ArchiveRequest(t, offset) == Request(date, time)
  }

  lemma FiveParts(a: seq<bv8>, b: seq<bv8>, c: seq<bv8>, d: seq<bv8>, e: seq<bv8>, n: nat)
    requires |a| == |b| == |c| == |d| == |e| == n
    ensures var all := a + b + c + d + e;
      && |all| == 5 * n && all[0..n] == a && all[n..2 * n] == b && all[2 * n..3 * n] == c
      && all[3 * n..4 * n] == d && all[4 * n..5 * n] == e
  {
  }

  lemma RecordInside(sequence: bv8, records: seq<seq<bv8>>, padding: seq<bv8>, i: nat)
    requires IsPage(records, padding) && i < 5
    ensures PageBytes(sequence, records, padding)[1 + 52 * i..53 + 52 * i] == records[i]
  {
    hide CrcOf, HighByte, LowByte;
    var all := records[0] + records[1] + records[2] + records[3] + records[4];
    FiveParts(records[0], records[1], records[2], records[3], records[4], 52);
    var bytes := PageBytes(sequence, records, padding);
    assert bytes[1..261] == all;
    assert bytes[1..261][52 * i..52 * i + 52] == bytes[1 + 52 * i..53 + 52 * i];
  }

  /** Whatever its sequence number and its padding, a page is valid, and each record is read
      where it was put, its date and its time from two bytes each, the low one first. It is
      a dash when they are all ones, blank when they are all zeros. */
  lemma PageIsRead(sequence: bv8, records: seq<seq<bv8>>, padding: seq<bv8>, offset: int, i: nat)
    requires IsPage(records, padding) && i < 5
    ensures var page, r := ReadPage(PageBytes(sequence, records, padding), offset), records[i];
      var date, time := r[0] as int + 256 * r[1] as int, r[2] as int + 256 * r[3] as int;
      && page.valid && |page.points| == 5
      && page.points[i] == DataPoint(date == 0xffff && time == 0xffff, date == 0 && time == 0,
                                     RecordTimestamp(date, time, offset), r)
  {
    hide Validates, RecordTimestamp, WordAt, PageBytes, ReadPage, PointAt;
    var bytes := PageBytes(sequence, records, padding);
    RecordInside(sequence, records, padding, i);
    PageIsValid(sequence, records, padding);
    WordsInside(bytes, 1 + 52 * i, records[i]);
    PointIsRead(bytes, i, offset);
  }

  lemma PointIsRead(bytes: seq<bv8>, i: nat, offset: int)
    requires |bytes| == 267 && i < 5
    ensures var page, start := ReadPage(bytes, offset), 1 + 52 * i;
      var date, time := WordAt(bytes, start), WordAt(bytes, start + 2);
      && page.valid == Validates(bytes) && |page.points| == 5
      && page.points[i] == DataPoint(date == 0xffff && time == 0xffff, date == 0 && time == 0,
                                     RecordTimestamp(date, time, offset), bytes[start..start + 52])
  {
    hide Validates, RecordTimestamp, WordAt;
  }

  /** Round trip of a page: a record whose date and time are the words of a request for some
      instant stands for that instant floored to the minute. */
  lemma PageRoundTrip(sequence: bv8, records: seq<seq<bv8>>, padding: seq<bv8>, offset: int,
                      i: nat, date: int, time: int)
    requires IsPage(records, padding) && i < 5 && 0 <= date < 0x1_0000 && 0 <= time < 0x1_0000
    requires records[i][..4] == LittleEndian(date) + LittleEndian(time)
    ensures var page := ReadPage(PageBytes(sequence, records, padding), offset);
      && page.valid && |page.points| == 5
      && var p := page.points[i];
      && p.body == records[i]
      && (p.dash <==> date == 0xffff && time == 0xffff)
      && (p.blank <==> date == 0 && time == 0)
      && forall t :: IsRequest(t, offset, date, time) ==> p.time == t / 60 * 60
  {
    hide ReadPage, RecordTimestamp, LittleEndian, IsRequest, PageBytes;
    PageIsRead(sequence, records, padding, offset, i);
    HeadOf(records[i], date, time);
    forall t | IsRequest(t, offset, date, time) ensures RecordTimestamp(date, time, offset) == t / 60 * 60 {
      RequestIsRead(t, offset, date, time);
    }
  }

  lemma RequestIsRead(t: int, offset: int, date: int, time: int)
    requires IsRequest(t, offset, date, time)
    ensures RecordTimestamp(date, time, offset) == t / 60 * 60
  {
    hide RecordTimestamp, ArchiveRequest, LocalDay, Representable;
    RequestRoundTrip(t, offset);
  }

  lemma PageIsValid(sequence: bv8, records: seq<seq<bv8>>, padding: seq<bv8>)
    requires IsPage(records, padding)
    ensures Validates(PageBytes(sequence, records, padding))
  {
    hide CrcOf, Validates, HighByte, LowByte;
    var p := [sequence] + (records[0] + records[1] + records[2] + records[3] + records[4]) + padding;
    var check := CrcBytes(CrcOf(p));
    ValidIffSealed(p, check[0], check[1]);
    assert Sealed(p) == p + [check[0], check[1]];
  }

  lemma WordsInside(bytes: seq<bv8>, start: nat, record: seq<bv8>)
    requires start + 52 <= |bytes| && bytes[start..start + 52] == record
    ensures WordAt(bytes, start) == record[0] as int + 256 * record[1] as int
    ensures WordAt(bytes, start + 2) == record[2] as int + 256 * record[3] as int
  {
    assert forall k :: 0 <= k < 4 ==> record[k] == bytes[start + k];
  }

  lemma HeadOf(record: seq<bv8>, date: int, time: int)
    requires |record| == 52 && 0 <= date < 0x1_0000 && 0 <= time < 0x1_0000
    requires record[..4] == LittleEndian(date) + LittleEndian(time)
    ensures record[0] as int + 256 * record[1] as int == date
    ensures record[2] as int + 256 * record[3] as int == time
  {
    hide ByteOf;
    WordRoundTrip(date);
    WordRoundTrip(time);
    assert forall k :: 0 <= k < 4 ==> record[k] == record[..4][k];
  }

  // --------------------------------------------------------------- which records count

  /** The two readings of the clock, in nanoseconds, against which a record is compared:
      one to find it relevant, a later one to find it valid. */
  datatype Clock = Clock(relevance: int, validity: int)

  predicate Relevant(p: DataPoint, beginning: int, clock: Clock) {
    !p.dash && beginning < p.time && Ticks(p.time) <= clock.relevance
  }

  predicate LooksValid(p: DataPoint, beginning: int, clock: Clock) {
    !p.blank && Ticks(p.time) < clock.validity && p.time > beginning
  }

  /** The records that must reach the database. */
  predicate Wanted(p: DataPoint, beginning: int, clock: Clock) {
    Relevant(p, beginning, clock) && LooksValid(p, beginning, clock)
  }

  /** The latest relevant timestamp of some records, or `floor` if none is later. */
  function Latest(points: seq<DataPoint>, floor: int, beginning: int, clock: Clock): (m: int)
    ensures floor <= m
  {
    if points == [] then floor
    else
      var n := |points| - 1;
      var m := Latest(points[..n], floor, beginning, clock);
      if Relevant(points[n], beginning, clock) && points[n].time > m then points[n].time else m
  }

  function Kept(points: seq<DataPoint>, beginning: int, clock: Clock): seq<DataPoint> {
    if points == [] then []
    else
      var n := |points| - 1;
      Kept(points[..n], beginning, clock) + (if Wanted(points[n], beginning, clock) then [points[n]] else [])
  }

  /** Number of records that `store` looks at: it stops at the first refused one. */
  function Reached(points: seq<DataPoint>, refused: set<int>, beginning: int, clock: Clock): (n: nat)
    ensures n <= |points|
    ensures forall i :: 0 <= i < n - 1 ==> !(Wanted(points[i], beginning, clock) && i in refused)
    ensures n < |points| ==> n > 0 && Wanted(points[n - 1], beginning, clock) && n - 1 in refused
  {
    if points == [] then 0
    else
      var n := |points| - 1;
      var r := Reached(points[..n], refused, beginning, clock);
      if r < n || (n > 0 && Wanted(points[n - 1], beginning, clock) && n - 1 in refused) then r else n + 1
  }

  datatype StoreResult = StoreResult(ok: bool, mostRecent: int, inserted: seq<DataPoint>)

  function Store(points: seq<DataPoint>, db: Database, beginning: int, mostRecent: int, clock: Clock): StoreResult {
    var n := Reached(points, db.refused, beginning, clock);
    var stopped := n > 0 && Wanted(points[n - 1], beginning, clock) && n - 1 in db.refused;
    StoreResult(!stopped && db.batchOk,
                Latest(points[..n], mostRecent, beginning, clock),
                Kept(points[..if stopped then n - 1 else n], beginning, clock))
  }

  // ------------------------------------------------------------------------ the object

  class VantagePro2ArchivePage {
    var beginning: int
    var mostRecent: int

    constructor ()
      ensures beginning == 0 && mostRecent == 0
    {
      beginning, mostRecent := 0, 0;
    }

    method Prepare(lastArchive: int)
      modifies this
      ensures beginning == lastArchive && mostRecent == lastArchive
    {
      beginning := lastArchive;
      mostRecent := beginning;
    }

    method IsRelevant(p: DataPoint, clock: Clock) returns (relevant: bool)
      modifies this`mostRecent
      ensures relevant <==> Relevant(p, beginning, clock)
      ensures mostRecent == if relevant && p.time > old(mostRecent) then p.time else old(mostRecent)
    {
      if p.dash {
        return false;
      }
      if p.time > beginning && Ticks(p.time) <= clock.relevance {
        if p.time > mostRecent {
          mostRecent := p.time;
        }
        return true;
      }
      return false;
    }

    /** Stores a page record by record; `inserted` are the rows that were written. */
    method StorePage(points: seq<DataPoint>, db: Database, clock: Clock)
      returns (ok: bool, inserted: seq<DataPoint>)
      modifies this`mostRecent
      ensures StoreResult(ok, mostRecent, inserted) == Store(points, db, beginning, old(mostRecent), clock)
    {
      hide Relevant, LooksValid;
      ok, inserted := true, [];
      var i := 0;
      while i < |points| && ok
        invariant 0 <= i <= |points|
        invariant !ok ==> i > 0 && Wanted(points[i - 1], beginning, clock) && i - 1 in db.refused
        invariant ok ==> forall j :: 0 <= j < i ==> !(Wanted(points[j], beginning, clock) && j in db.refused)
        invariant forall j :: 0 <= j < i - 1 ==> !(Wanted(points[j], beginning, clock) && j in db.refused)
        invariant mostRecent == Latest(points[..i], old(mostRecent), beginning, clock)
        invariant inserted == Kept(points[..if ok then i else i - 1], beginning, clock)
      {
        assert points[..i + 1][..i] == points[..i];
        var relevant := IsRelevant(points[i], clock);
        if relevant && LooksValid(points[i], beginning, clock) {
          if i in db.refused {
            ok := false;
          } else {
            inserted := inserted + [points[i]];
          }
        }
        i := i + 1;
      }
      ghost var n := Reached(points, db.refused, beginning, clock);
      assert n == i;
      ok := ok && db.batchOk;
    }
  }

  // ---------------------------------------------------------------------- what it means

  lemma {:induction false} LatestIsRelevant(points: seq<DataPoint>, floor: int, beginning: int, clock: Clock)
    ensures var m := Latest(points, floor, beginning, clock);
      && (forall p :: p in points && Relevant(p, beginning, clock) ==> p.time <= m)
      && (m == floor || exists p :: p in points && Relevant(p, beginning, clock) && p.time == m)
  {
    if points == [] {
    } else {
      var n := |points| - 1;
      LatestIsRelevant(points[..n], floor, beginning, clock);
      assert points == points[..n] + [points[n]];
    }
  }

  /** The most recent timestamp is the maximum of its initial value and the times of the
      records that are no dashes, after the beginning, and not after the clock. */
  lemma LatestIsMaximum(points: seq<DataPoint>, floor: int, beginning: int, clock: Clock)
    ensures var m := Latest(points, floor, beginning, clock);
      && (forall p :: p in points && !p.dash && beginning < p.time && p.time * 1_000_000_000 <= clock.relevance ==>
            p.time <= m)
      && (m == floor || exists p ::
            && p in points && p.time == m
            && !p.dash && beginning < p.time && p.time * 1_000_000_000 <= clock.relevance)
  {
    hide Latest;
    LatestIsRelevant(points, floor, beginning, clock);
  }

  lemma {:induction false} KeptIsWanted(points: seq<DataPoint>, beginning: int, clock: Clock)
    ensures forall p :: p in Kept(points, beginning, clock) <==> p in points && Wanted(p, beginning, clock)
  {
    if points == [] {
    } else {
      var n := |points| - 1;
      KeptIsWanted(points[..n], beginning, clock);
      assert points == points[..n] + [points[n]];
    }
  }

  lemma AcceptedIsWanted(points: seq<DataPoint>, db: Database, beginning: int, mostRecent: int, clock: Clock)
    requires Store(points, db, beginning, mostRecent, clock).ok
    ensures var r := Store(points, db, beginning, mostRecent, clock);
      && (forall p :: p in r.inserted <==> p in points && Wanted(p, beginning, clock))
      && r.mostRecent == Latest(points, mostRecent, beginning, clock)
  {
    var n := Reached(points, db.refused, beginning, clock);
    assert points[..n] == points;
    KeptIsWanted(points, beginning, clock);
  }

  /** An accepted page leaves nothing out: every record has been inserted that is neither a
      dash nor blank, after the beginning, and in the past at both readings of the clock,
      nothing else has been, and the most recent timestamp takes the whole page in. */
  lemma AcceptedPageIsComplete(points: seq<DataPoint>, db: Database, beginning: int, mostRecent: int, clock: Clock)
    requires Store(points, db, beginning, mostRecent, clock).ok
    ensures var r := Store(points, db, beginning, mostRecent, clock);
      && (forall p :: p in r.inserted <==>
            && p in points && !p.dash && !p.blank && beginning < p.time
            && p.time * 1_000_000_000 <= clock.relevance && p.time * 1_000_000_000 < clock.validity)
      && r.mostRecent == Latest(points, mostRecent, beginning, clock)
  {
    hide Store, Latest;
    AcceptedIsWanted(points, db, beginning, mostRecent, clock);
  }

  /** A page is accepted exactly when the database refuses no wanted record of it
      and takes the batch. */
  lemma AcceptedIff(points: seq<DataPoint>, db: Database, beginning: int, mostRecent: int, clock: Clock)
    ensures Store(points, db, beginning, mostRecent, clock).ok
       <==> db.batchOk && forall i :: 0 <= i < |points| && i in db.refused ==> !Wanted(points[i], beginning, clock)
  {
  }

  /** A page is given up at the first wanted record that the database refuses: those before it
      have been inserted, and the most recent timestamp counts it. */
  lemma RefusedAt(points: seq<DataPoint>, db: Database, beginning: int, mostRecent: int, clock: Clock, i: nat)
    requires i < |points| && i in db.refused && Wanted(points[i], beginning, clock)
    requires forall j :: 0 <= j < i && j in db.refused ==> !Wanted(points[j], beginning, clock)
    ensures var r := Store(points, db, beginning, mostRecent, clock);
      && !r.ok && r.mostRecent == Latest(points[..i + 1], mostRecent, beginning, clock)
      && r.inserted == Kept(points[..i], beginning, clock)
  {
    hide Wanted, Latest, Kept;
    assert Reached(points, db.refused, beginning, clock) == i + 1;
  }

  /** The most recent timestamp may move past a record that is not stored, since relevance
      allows the present instant and validity does not: exactly when the page holds a
      relevant record that is blank, or whose time is not before the second reading. */
  lemma NothingSkippedIff(points: seq<DataPoint>, db: Database, beginning: int, mostRecent: int, clock: Clock)
    requires Store(points, db, beginning, mostRecent, clock).ok
    ensures var inserted := Store(points, db, beginning, mostRecent, clock).inserted;
      (forall p :: p in points && Relevant(p, beginning, clock) ==> p in inserted)
      <==> forall p :: p in points && Relevant(p, beginning, clock) ==> !p.blank && Ticks(p.time) < clock.validity
  {
    AcceptedIsWanted(points, db, beginning, mostRecent, clock);
  }

  /** While the clock does not go back, that takes a record stamped with the very instant,
      to the nanosecond, of both readings: a record of the present second that is handled
      later in that second is stored. */
  lemma SkippedAtTheInstant(p: DataPoint, beginning: int, clock: Clock)
    requires clock.relevance <= clock.validity && Relevant(p, beginning, clock)
    ensures Wanted(p, beginning, clock)
      <==> !p.blank && !(Ticks(p.time) == clock.relevance == clock.validity)
  {
  }
}

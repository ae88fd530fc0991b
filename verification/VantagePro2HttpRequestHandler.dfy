/** The upload of archive pages over HTTP: the span of a page replaces, day by day, what
    was stored over that span. */
module VantagePro2HttpRequestHandlers {
  import opened Common

  /** One archive record: its time, whether its date fields are blank, and its values. */
  datatype Record = Record(time: int, blank: bool, values: int)

  /** The rows of the station, keyed by time. */
  type Rows = map<int, int>

  datatype Response = Untouched | NotAcceptable | NoContent

  /** What the databases answer: the deletion of each day, the insertion of each record,
      the batch insertion, the update of the last archive. */
  datatype Answers = Answers(deletion: int -> bool, insertion: nat -> bool, batch: bool, update: bool)

  /** `clock` is a reading in nanoseconds. */
  predicate LooksValid(r: Record, clock: int) {
    !r.blank && Ticks(r.time) < clock
  }

  function ValidOnes(records: seq<Record>, clock: int): seq<Record> {
    if records == [] then []
    else
      var n := |records| - 1;
      ValidOnes(records[..n], clock) + if LooksValid(records[n], clock) then [records[n]] else []
  }

  /** The span starts reversed, from now, in seconds, back to the epoch. */
  function Oldest(valid: seq<Record>, now: int): int {
    if valid == [] then now
    else
      var o, t := Oldest(valid[..|valid| - 1], now), valid[|valid| - 1].time;
      if t < o then t else o
  }

  function Newest(valid: seq<Record>): int {
    if valid == [] then 0
    else
      var o, t := Newest(valid[..|valid| - 1]), valid[|valid| - 1].time;
      if t > o then t else o
  }

  /** The rows left by deletions over a span, some of which may fail. */
  function Deleted(rows: Rows, oldest: int, newest: int, deletion: int -> bool): Rows {
    map t | t in rows && !(oldest <= t <= newest && deletion(Day(t))) :: rows[t]
  }

  /** Insertions overwrite the row of the same time. */
  function Put(rows: Rows, records: seq<Record>): Rows {
    if records == [] then rows
    else
      var n := |records| - 1;
      Put(rows, records[..n])[records[n].time := records[n].values]
  }

  /** How many records are inserted before the first failure. */
  function Reached(insertion: nat -> bool, n: nat): (k: nat)
    ensures k <= n && forall i :: 0 <= i < k ==> insertion(i)
    ensures k < n ==> !insertion(k)
  {
    if n == 0 then 0
    else
      var k := Reached(insertion, n - 1);
      if k == n - 1 && insertion(n - 1) then n else k
  }

  /** Whether the upload goes on after the deletions: only the last one counts. */
  predicate SpanDeleted(oldest: int, newest: int, deletion: int -> bool) {
    Day(oldest) <= Day(newest) ==> deletion(Day(newest))
  }

  predicate Succeeds(valid: seq<Record>, now: int, answers: Answers) {
    && SpanDeleted(Oldest(valid, now), Newest(valid), answers.deletion)
    && Reached(answers.insertion, |valid|) == |valid|
    && answers.batch
  }

  /** The date of the last archive after an upload. */
  function NextLastArchive(lastArchive: int, valid: seq<Record>, now: int, answers: Answers): int {
    if Succeeds(valid, now, answers) && answers.update then Newest(valid) else lastArchive
  }

  /** The rows after an upload, successful or not. */
  function RowsAfter(rows: Rows, valid: seq<Record>, now: int, answers: Answers): Rows {
    var oldest, newest := Oldest(valid, now), Newest(valid);
    var cleared := Deleted(rows, oldest, newest, answers.deletion);
    if SpanDeleted(oldest, newest, answers.deletion) then Put(cleared, valid[..Reached(answers.insertion, |valid|)])
    else cleared
  }

  class VantagePro2HttpRequestHandler {
    var rows: Rows
    var timescale: Rows
    var lastArchive: int
    var jobs: seq<(int, int)>
    const hasPublisher: bool

    constructor (hasPublisher: bool)
      ensures rows == map[] && timescale == map[] && lastArchive == 0 && jobs == []
      ensures this.hasPublisher == hasPublisher
    {
      rows, timescale, lastArchive, jobs := map[], map[], 0, [];
      this.hasPublisher := hasPublisher;
    }

    /** The valid records, in order, and their span. */
    method ReadRecords(records: seq<Record>, now: int, clock: int)
      returns (all: seq<Record>, oldest: int, newest: int)
      ensures all == ValidOnes(records, clock) && oldest == Oldest(all, now) && newest == Newest(all)
      ensures all == Without(records, (r: Record) => r.blank || r.time * 1_000_000_000 >= clock)
      ensures oldest <= now && (oldest == now || Has(all, oldest)) && forall r :: r in all ==> oldest <= r.time
      ensures newest >= 0 && (newest == 0 || Has(all, newest)) && forall r :: r in all ==> r.time <= newest
    {
      all, oldest, newest := [], now, 0;
      for i := 0 to |records|
        invariant all == ValidOnes(records[..i], clock) && oldest == Oldest(all, now) && newest == Newest(all)
      {
        assert records[..i + 1][..i] == records[..i];
        var r := records[i];
        if LooksValid(r, clock) {
          if r.time < oldest {
            oldest := r.time;
          }
          if r.time > newest {
            newest := r.time;
          }
          assert (all + [r])[..|all|] == all;
          all := all + [r];
        }
      }
      assert records[..|records|] == records;
      ValidOnesIs(records, clock);
      SpanIs(all, now);
    }

    /** Day by day, from the day of the oldest record to the day of the newest one. */
    method DeleteSpan(oldest: int, newest: int, deletion: int -> bool) returns (ret: bool)
      modifies this`rows
      ensures rows == Deleted(old(rows), oldest, newest, deletion)
      ensures forall t :: t in rows <==> t in old(rows) && !(oldest <= t <= newest && deletion(t / 86400))
      ensures forall t :: t in rows ==> rows[t] == old(rows)[t]
      ensures ret <==> SpanDeleted(oldest, newest, deletion)
      ensures ret <==> (oldest / 86400 <= newest / 86400 ==> deletion(newest / 86400))
    {
      ret := true;
      var day, lastDay := Day(oldest), Day(newest);
      while day <= lastDay
        invariant Day(oldest) <= day
        invariant if Day(oldest) <= Day(newest) then day <= lastDay + 1 else day == Day(oldest)
        invariant day == Day(oldest) ==> ret
        invariant day > Day(oldest) ==> ret == deletion(day - 1)
        invariant rows == map t | t in old(rows) &&
          !(oldest <= t <= newest && Day(t) < day && deletion(Day(t))) :: old(rows)[t]
        decreases lastDay - day
      {
        ret := deletion(day);
        if ret {
          rows := map t | t in rows && !(oldest <= t <= newest && Day(t) == day) :: rows[t];
        }
        day := day + 1;
      }
    }

    /** Inserts until the first failure, if no deletion has failed before. */
    method InsertAll(all: seq<Record>, insertion: nat -> bool, before: bool) returns (ret: bool)
      modifies this`rows
      ensures rows == if before then Put(old(rows), all[..Reached(insertion, |all|)]) else old(rows)
      ensures ret <==> before && Reached(insertion, |all|) == |all|
    {
      ret := before;
      ghost var k := 0;
      for i := 0 to |all|
        invariant 0 <= k <= i && k == (if before then Reached(insertion, i) else 0)
        invariant ret <==> before && k == i
        invariant rows == Put(old(rows), all[..k])
      {
        if ret {
          ret := insertion(i);
          if ret {
            rows := rows[all[i].time := all[i].values];
            assert all[..i + 1][..i] == all[..i];
            k := i + 1;
          }
        }
      }
    }

    /** A page whose size is not a whole number of records is announced as not acceptable,
        and handled all the same, without the bytes left over. */
    method PostArchivePage(records: seq<Record>, leftover: bool, now: int, clock: int, answers: Answers)
      returns (response: Response)
      modifies this
      ensures var valid := ValidOnes(records, clock);
        var ok := Succeeds(valid, now, answers);
        && rows == RowsAfter(old(rows), valid, now, answers)
        && timescale == (if ok then Put(old(timescale), valid) else old(timescale))
        && lastArchive == NextLastArchive(old(lastArchive), valid, now, answers)
        && jobs == (if ok && hasPublisher then old(jobs) + [(Oldest(valid, now), Newest(valid))] else old(jobs))
        && response == if ok then NoContent else if leftover then NotAcceptable else Untouched
      // each record counts that is not blank and lies in the past
      ensures response.NoContent? ==>
        forall r :: r in records && !r.blank && r.time * 1_000_000_000 < clock ==> r.time in rows
      // a row is new, or has changed, only through such a record
      ensures forall t :: t in rows && !(t in old(rows) && rows[t] == old(rows)[t]) ==>
        exists r :: r in records && !r.blank && r.time * 1_000_000_000 < clock && r.time == t && r.values == rows[t]
      // a row goes only between two such records, or from the present on, or up to the epoch
      ensures forall t :: t in old(rows) && t !in rows ==>
        && (now <= t || exists r :: r in records && !r.blank && r.time * 1_000_000_000 < clock && r.time <= t)
        && (t <= 0 || exists r :: r in records && !r.blank && r.time * 1_000_000_000 < clock && t <= r.time)
    {
      hide Deleted, Put, Reached, ValidOnes, Oldest, Newest, SpanDeleted;
      response := if leftover then NotAcceptable else Untouched;
      UploadTouches(rows, records, now, clock, answers);
      var all, oldest, newest := ReadRecords(records, now, clock);
      var ret := DeleteSpan(oldest, newest, answers.deletion);
      ret := InsertAll(all, answers.insertion, ret);
      if ret && answers.batch {
        timescale := InsertBatch(timescale, all);
        if answers.update {
          lastArchive := newest;
        }
        if hasPublisher {
          jobs := jobs + [(oldest, newest)];
        }
        response := NoContent;
      }
    }

    /** The batch insertion of the other database. */
    static method InsertBatch(before: Rows, all: seq<Record>) returns (after: Rows)
      ensures after == Put(before, all)
    {
      after := before;
      for i := 0 to |all|
        invariant after == Put(before, all[..i])
      {
        assert all[..i + 1][..i] == all[..i];
        after := after[all[i].time := all[i].values];
      }
      assert all[..|all|] == all;
    }
  }

  // ------------------------------------------------------------------ what is promised

  predicate Has(records: seq<Record>, t: int) {
    exists r :: r in records && r.time == t
  }

  /** The last record of a time, among some. */
  function LastAt(records: seq<Record>, t: int): (v: int)
    requires Has(records, t)
    ensures exists i ::
      && 0 <= i < |records| && records[i].time == t && records[i].values == v
      && forall j :: i < j < |records| ==> records[j].time != t
  {
    var n := |records| - 1;
    if records[n].time == t then records[n].values
    else
      assert Has(records[..n], t) by {
        var r :| r in records && r.time == t;
        assert records == records[..n] + [records[n]];
      }
      LastAt(records[..n], t)
  }

  /** Records overwrite one another and leave other rows alone: the last one wins. */
  lemma {:induction false} PutIsLastWins(rows: Rows, records: seq<Record>, t: int)
    ensures t in Put(rows, records) <==> t in rows || Has(records, t)
    ensures Has(records, t) ==> Put(rows, records)[t] == LastAt(records, t)
    ensures !Has(records, t) && t in rows ==> Put(rows, records)[t] == rows[t]
  {
    if records == [] {
    } else {
      var n := |records| - 1;
      PutIsLastWins(rows, records[..n], t);
      assert records == records[..n] + [records[n]];
      assert records[n] in records;
      if Has(records, t) && records[n].time != t {
        var r :| r in records && r.time == t;
        assert r in records[..n];
      }
    }
  }

  /** The span begins with the oldest record, or now, and ends with the newest, or at the
      epoch. */
  lemma {:induction false} SpanIs(valid: seq<Record>, now: int)
    ensures var oldest := Oldest(valid, now);
      oldest <= now && (oldest == now || Has(valid, oldest)) && forall r :: r in valid ==> oldest <= r.time
    ensures var newest := Newest(valid);
      newest >= 0 && (newest == 0 || Has(valid, newest)) && forall r :: r in valid ==> r.time <= newest
  {
    hide Has;
    if valid == [] {
    } else {
      var n := |valid| - 1;
      assert valid == valid[..n] + [valid[n]];
      SpanIs(valid[..n], now);
      HasLast(valid);
      HasFormer(valid, Oldest(valid[..n], now));
      HasFormer(valid, Newest(valid[..n]));
    }
  }

  lemma SpanHolds(valid: seq<Record>, now: int)
    requires forall r :: r in valid ==> 0 < r.time <= now
    ensures forall r :: r in valid ==> Oldest(valid, now) <= r.time <= Newest(valid)
    ensures valid != [] ==> Has(valid, Oldest(valid, now)) && Has(valid, Newest(valid))
    ensures valid != [] ==> 0 < Oldest(valid, now) <= Newest(valid) <= now
  {
    hide Oldest, Newest;
    SpanIs(valid, now);
    if valid != [] {
      assert valid[0] in valid;
    }
  }

  lemma HasLast(valid: seq<Record>)
    requires valid != []
    ensures Has(valid, valid[|valid| - 1].time)
  {
    assert valid[|valid| - 1] in valid;
  }

  lemma HasFormer(valid: seq<Record>, t: int)
    requires valid != []
    ensures Has(valid[..|valid| - 1], t) ==> Has(valid, t)
  {
  }

  /** The records that are left, in order, without those of some kind. */
  function Without(records: seq<Record>, dropped: Record -> bool): (kept: seq<Record>)
    ensures forall r :: r in kept <==> r in records && !dropped(r)
  {
    if records == [] then []
    else
      var n := |records| - 1;
      assert records == records[..n] + [records[n]];
      Without(records[..n], dropped) + if dropped(records[n]) then [] else [records[n]]
  }

  lemma {:induction false} ValidOnesIs(records: seq<Record>, clock: int)
    ensures ValidOnes(records, clock) == Without(records, (r: Record) => r.blank || r.time * 1_000_000_000 >= clock)
  {
    if records == [] {
    } else {
      ValidOnesIs(records[..|records| - 1], clock);
    }
  }

  lemma {:induction false} NothingDropped(records: seq<Record>, dropped: Record -> bool)
    requires forall r :: r in records ==> !dropped(r)
    ensures Without(records, dropped) == records
  {
    if records == [] {
    } else {
      var n := |records| - 1;
      assert records[n] in records && records == records[..n] + [records[n]];
      assert forall r :: r in records[..n] ==> r in records;
      NothingDropped(records[..n], dropped);
    }
  }

  lemma KeptAreValid(records: seq<Record>, clock: int)
    ensures var kept := Without(records, (r: Record) => r.blank || r.time * 1_000_000_000 >= clock);
      ValidOnes(kept, clock) == ValidOnes(records, clock) == kept
  {
    hide ValidOnes, Without;
    var dropped := (r: Record) => r.blank || r.time * 1_000_000_000 >= clock;
    ValidOnesIs(records, clock);
    ValidOnesIs(Without(records, dropped), clock);
    NothingDropped(Without(records, dropped), dropped);
  }

  /** What an upload puts, keeps and removes, in terms of the records as they were posted. */
  lemma UploadTouches(rows: Rows, records: seq<Record>, now: int, clock: int, answers: Answers)
    ensures var after := RowsAfter(rows, ValidOnes(records, clock), now, answers);
      && (Succeeds(ValidOnes(records, clock), now, answers) ==>
          forall r :: r in records && !r.blank && r.time * 1_000_000_000 < clock ==> r.time in after)
      && (forall t :: t in after && !(t in rows && after[t] == rows[t]) ==>
          exists r :: r in records && !r.blank && r.time * 1_000_000_000 < clock && r.time == t && r.values == after[t])
      && (forall t :: t in rows && t !in after ==>
          && (now <= t || exists r :: r in records && !r.blank && r.time * 1_000_000_000 < clock && r.time <= t)
          && (t <= 0 || exists r :: r in records && !r.blank && r.time * 1_000_000_000 < clock && t <= r.time))
  {
    hide Oldest, Newest, Put, LastAt, ValidOnes, SpanDeleted, Reached, Without;
    var valid := ValidOnes(records, clock);
    ValidOnesIs(records, clock);
    SpanIs(valid, now);
    var k := Reached(answers.insertion, |valid|);
    var cleared := Deleted(rows, Oldest(valid, now), Newest(valid), answers.deletion);
    var after := RowsAfter(rows, valid, now, answers);
    forall r | r in valid && Succeeds(valid, now, answers) ensures r.time in after {
      assert valid[..k] == valid;
      PutIsLastWins(cleared, valid, r.time);
    }
    forall t | t in after && !(t in rows && after[t] == rows[t])
      ensures exists r :: r in valid && r.time == t && r.values == after[t]
    {
      PutOrigin(cleared, valid[..k], t);
    }
    forall t | t in rows && t !in after ensures Oldest(valid, now) <= t <= Newest(valid) {
      PutOrigin(cleared, valid[..k], t);
    }
  }

  lemma {:induction false} PutOrigin(rows: Rows, records: seq<Record>, t: int)
    ensures t in rows ==> t in Put(rows, records)
    ensures t in Put(rows, records) && !(t in rows && Put(rows, records)[t] == rows[t]) ==>
      exists r :: r in records && r.time == t && r.values == Put(rows, records)[t]
  {
    if records == [] {
    } else {
      var n := |records| - 1;
      PutOrigin(rows, records[..n], t);
      assert records == records[..n] + [records[n]];
      assert records[n] in records;
    }
  }

  predicate ReplacedAt(before: Rows, after: Rows, valid: seq<Record>, oldest: int, newest: int, t: int) {
    if oldest <= t <= newest then (t in after <==> Has(valid, t)) && (Has(valid, t) ==> after[t] == LastAt(valid, t))
    else (t in after <==> t in before) && (t in before ==> after[t] == before[t])
  }

  /** After an upload, over the span: the records of the page, the last of each time, and
      nothing else; outside the span: what was there. */
  ghost predicate IsReplaced(before: Rows, after: Rows, valid: seq<Record>, oldest: int, newest: int) {
    forall t :: ReplacedAt(before, after, valid, oldest, newest, t)
  }

  /** The rows after a successful upload. */
  function Uploaded(rows: Rows, valid: seq<Record>, now: int, deletion: int -> bool): Rows {
    Put(Deleted(rows, Oldest(valid, now), Newest(valid), deletion), valid)
  }

  lemma UploadedAt(rows: Rows, valid: seq<Record>, now: int, deletion: int -> bool, t: int)
    requires forall r :: r in valid ==> 0 < r.time <= now
    ensures var after, inside := Uploaded(rows, valid, now, deletion), Oldest(valid, now) <= t <= Newest(valid);
      && (Has(valid, t) ==> inside && t in after && after[t] == LastAt(valid, t))
      && (!Has(valid, t) && inside ==> (t in after <==> t in rows && !deletion(Day(t))))
      && (!inside ==> (t in after <==> t in rows))
      && (!Has(valid, t) && t in after ==> after[t] == rows[t])
  {
    hide Oldest, Newest, Put, LastAt;
    SpanHolds(valid, now);
    PutIsLastWins(Deleted(rows, Oldest(valid, now), Newest(valid), deletion), valid, t);
  }

  /** A row of the span that the page does not bring survives a failed deletion. */
  predicate Survives(rows: Rows, valid: seq<Record>, now: int, deletion: int -> bool, t: int) {
    t in rows && Oldest(valid, now) <= t <= Newest(valid) && !Has(valid, t) && !deletion(Day(t))
  }

  /** Range replacement: a successful upload replaces the span exactly if and only if no
      row survives a failed deletion. When the deletions all succeed, none does. */
  lemma RangeReplacedIff(rows: Rows, valid: seq<Record>, now: int, deletion: int -> bool)
    requires forall r :: r in valid ==> 0 < r.time <= now
    ensures IsReplaced(rows, Uploaded(rows, valid, now, deletion), valid, Oldest(valid, now), Newest(valid))
      <==> forall t :: !Survives(rows, valid, now, deletion, t)
    ensures (forall d :: Day(Oldest(valid, now)) <= d <= Day(Newest(valid)) ==> deletion(d)) ==>
      forall t :: !Survives(rows, valid, now, deletion, t)
  {
    hide Oldest, Newest, Has, LastAt, Uploaded;
    var after, oldest, newest := Uploaded(rows, valid, now, deletion), Oldest(valid, now), Newest(valid);
    forall t
      ensures ReplacedAt(rows, after, valid, oldest, newest, t) <==> !Survives(rows, valid, now, deletion, t)
    {
      UploadedAt(rows, valid, now, deletion, t);
    }
    hide Survives, ReplacedAt;
    assert (forall d :: Day(oldest) <= d <= Day(newest) ==> deletion(d)) ==>
      forall t :: !Survives(rows, valid, now, deletion, t) by { NothingSurvives(rows, valid, now, deletion); }
  }

  lemma NothingSurvives(rows: Rows, valid: seq<Record>, now: int, deletion: int -> bool)
    ensures (forall d :: Day(Oldest(valid, now)) <= d <= Day(Newest(valid)) ==> deletion(d)) ==>
      forall t :: !Survives(rows, valid, now, deletion, t)
  {
    hide Oldest, Newest, Has;
    forall t | Survives(rows, valid, now, deletion, t)
      ensures !(forall d :: Day(Oldest(valid, now)) <= d <= Day(Newest(valid)) ==> deletion(d))
    {
      assert Day(Oldest(valid, now)) <= Day(t) <= Day(Newest(valid));
    }
  }

  /** With a record that looks valid, the span does not depend on the time of the upload:
      the same page posted later, when no other record has become valid, is the same. */
  lemma {:induction false} SpanIsOfThePage(valid: seq<Record>, now: int, later: int)
    requires valid != [] && forall r :: r in valid ==> r.time <= now && r.time <= later
    ensures Oldest(valid, now) == Oldest(valid, later)
  {
    var n := |valid| - 1;
    assert valid[n] in valid;
    if n == 0 {
    } else {
      SpanIsOfThePage(valid[..n], now, later);
    }
  }

  lemma SameSpanUploads(rows: Rows, valid: seq<Record>, now: int, later: int, deletion: int -> bool)
    requires 0 < now <= later && forall r :: r in valid ==> 0 < r.time <= now
    ensures Uploaded(rows, valid, later, deletion) == Uploaded(rows, valid, now, deletion)
  {
    if valid == [] {
      NothingDeleted(rows, now, deletion);
      NothingDeleted(rows, later, deletion);
    } else {
      SpanIsOfThePage(valid, now, later);
    }
  }

  lemma NothingDeleted(rows: Rows, now: int, deletion: int -> bool)
    requires now > 0
    ensures Uploaded(rows, [], now, deletion) == rows
  {
    assert Oldest([], now) == now && Newest([]) == 0;
  }

  /** Idempotence: once the span has been replaced, the same records change nothing more,
      however much later they come and whichever deletions succeed this time. */
  lemma SamePageChangesNothing(before: Rows, rows: Rows, valid: seq<Record>, now: int, later: int,
                               deletion: int -> bool)
    requires 0 < now <= later && forall r :: r in valid ==> 0 < r.time <= now
    requires IsReplaced(before, rows, valid, Oldest(valid, now), Newest(valid))
    ensures Uploaded(rows, valid, later, deletion) == rows
  {
    hide Oldest, Newest, Has, LastAt, Uploaded;
    SameSpanUploads(rows, valid, now, later, deletion);
    var after := Uploaded(rows, valid, now, deletion);
    forall t ensures (t in after <==> t in rows) && (t in rows ==> after[t] == rows[t]) {
      assert ReplacedAt(before, rows, valid, Oldest(valid, now), Newest(valid), t);
      UploadedAt(rows, valid, now, deletion, t);
    }
  }

  /** The batch of the other database, put twice, is there once. */
  lemma PutTwice(rows: Rows, records: seq<Record>)
    ensures Put(Put(rows, records), records) == Put(rows, records)
  {
    hide Put, LastAt, Has;
    var once, twice := Put(rows, records), Put(Put(rows, records), records);
    forall t ensures (t in twice <==> t in once) && (t in once ==> twice[t] == once[t]) {
      PutIsLastWins(rows, records, t);
      PutIsLastWins(once, records, t);
    }
  }

  /** What a successful upload leaves in the rows. */
  lemma SuccessUploads(rows: Rows, valid: seq<Record>, now: int, answers: Answers)
    requires Succeeds(valid, now, answers)
    ensures var cleared := Deleted(rows, Oldest(valid, now), Newest(valid), answers.deletion);
      && SpanDeleted(Oldest(valid, now), Newest(valid), answers.deletion)
      && Put(cleared, valid[..Reached(answers.insertion, |valid|)]) == Uploaded(rows, valid, now, answers.deletion)
  {
    hide Oldest, Newest, Put, Deleted, SpanDeleted;
    assert valid[..|valid|] == valid;
  }

  /** The same page posted twice. When both uploads succeed, no record has become valid in
      between and the first one has replaced the span, the second one changes nothing in
      either database; it moves the date of the last archive only if the first one could
      not. */
  method PostTwice(handler: VantagePro2HttpRequestHandler, records: seq<Record>, leftover: bool, now: int, clock: int,
                   answers: Answers, later: int, laterClock: int, laterAnswers: Answers)
    requires 0 < now <= later && ValidOnes(records, laterClock) == ValidOnes(records, clock)
    requires forall r :: r in ValidOnes(records, clock) ==> 0 < r.time <= now
    requires Succeeds(ValidOnes(records, clock), now, answers)
    requires Succeeds(ValidOnes(records, clock), later, laterAnswers)
    requires forall t :: !Survives(handler.rows, ValidOnes(records, clock), now, answers.deletion, t)
    modifies handler
    ensures var valid := ValidOnes(records, clock);
      && handler.rows == Uploaded(old(handler.rows), valid, now, answers.deletion)
      && IsReplaced(old(handler.rows), handler.rows, valid, Oldest(valid, now), Newest(valid))
      && handler.timescale == Put(old(handler.timescale), valid)
      && handler.lastArchive ==
           if answers.update || laterAnswers.update then Newest(valid) else old(handler.lastArchive)
  {
    hide Oldest, Newest, ValidOnes, Put, Uploaded, Survives, IsReplaced, Succeeds, SpanDeleted, Deleted, Reached;
    ghost var valid, before := ValidOnes(records, clock), handler.rows;
    SuccessUploads(before, valid, now, answers);
    var first := handler.PostArchivePage(records, leftover, now, clock, answers);
    RangeReplacedIff(before, valid, now, answers.deletion);
    ghost var between := handler.rows;
    SuccessUploads(between, valid, later, laterAnswers);
    SamePageChangesNothing(before, between, valid, now, later, laterAnswers.deletion);
    PutTwice(old(handler.timescale), valid);
    var second := handler.PostArchivePage(records, leftover, later, laterClock, laterAnswers);
  }

  /** Blank records and records that are not in the past do not matter: an upload does the
      same without them. */
  method PostTheRest(handler: VantagePro2HttpRequestHandler, twin: VantagePro2HttpRequestHandler,
                     records: seq<Record>, rest: seq<Record>, leftover: bool, now: int, clock: int, answers: Answers)
    returns (response: Response, same: Response)
    requires handler != twin && handler.hasPublisher == twin.hasPublisher
    requires handler.rows == twin.rows && handler.timescale == twin.timescale
    requires handler.lastArchive == twin.lastArchive && handler.jobs == twin.jobs
    requires rest == Without(records, (r: Record) => r.blank || r.time * 1_000_000_000 >= clock)
    modifies handler, twin
    ensures handler.rows == twin.rows && handler.timescale == twin.timescale
    ensures handler.lastArchive == twin.lastArchive && handler.jobs == twin.jobs && response == same
  {
    hide ValidOnes, RowsAfter, Succeeds, Oldest, Newest, Put;
    KeptAreValid(records, clock);
    response := handler.PostArchivePage(records, leftover, now, clock, answers);
    same := twin.PostArchivePage(rest, leftover, now, clock, answers);
  }

  /** An upload may succeed without replacing its span: only the last day counts, so the
      deletion of the first day may fail. The row at 200 is still there, although the page
      spans it and does not bring it. */
  lemma SuccessLeavesARow()
    ensures var valid, rows := [Record(100, false, 1), Record(90000, false, 2)], map[200 := 7];
      var deletion := (d: int) => d == 1;
      && Succeeds(valid, 100000, Answers(deletion, (i: nat) => true, true, true))
      && Survives(rows, valid, 100000, deletion, 200)
      && !IsReplaced(rows, Uploaded(rows, valid, 100000, deletion), valid, Oldest(valid, 100000), Newest(valid))
  {
    var valid, rows := [Record(100, false, 1), Record(90000, false, 2)], map[200 := 7];
    var deletion := (d: int) => d == 1;
    assert valid[..1] == [valid[0]] && [valid[0]][..0] == [];
    assert Oldest(valid[..1], 100000) == 100 && Newest(valid[..1]) == 100;
    AllReached((i: nat) => true, 2);
    assert Survives(rows, valid, 100000, deletion, 200);
    hide Survives, IsReplaced, Uploaded, Oldest, Newest;
    RangeReplacedIff(rows, valid, 100000, deletion);
  }

  /** Only the last day decides: when its deletion succeeds, an upload goes on whatever
      happened to the other days, and when it fails, nothing is inserted. */
  lemma LastDayDecides(rows: Rows, valid: seq<Record>, now: int, answers: Answers)
    requires valid != [] && forall r :: r in valid ==> 0 < r.time <= now
    ensures answers.batch && (forall i :: 0 <= i < |valid| ==> answers.insertion(i)) ==>
      (Succeeds(valid, now, answers) <==> answers.deletion(Newest(valid) / 86400))
    ensures var after := RowsAfter(rows, valid, now, answers);
      !answers.deletion(Newest(valid) / 86400) ==> forall t :: t in after ==> t in rows && after[t] == rows[t]
  {
    hide Oldest, Newest, Put;
    SpanHolds(valid, now);
    if forall i :: 0 <= i < |valid| ==> answers.insertion(i) {
      AllReached(answers.insertion, |valid|);
    }
  }

  lemma {:induction false} AllReached(insertion: nat -> bool, n: nat)
    requires forall i :: 0 <= i < n ==> insertion(i)
    ensures Reached(insertion, n) == n
  {
    if n == 0 {
    } else {
      AllReached(insertion, n - 1);
    }
  }

  lemma {:induction false} NewestBelow(valid: seq<Record>, t: int)
    ensures Newest(valid) < t <==> t > 0 && forall r :: r in valid ==> r.time < t
  {
    if valid == [] {
    } else {
      var n := |valid| - 1;
      NewestBelow(valid[..n], t);
      assert valid == valid[..n] + [valid[n]];
    }
  }

  /** An upload moves the date of the last archive back exactly when it succeeds, the date
      can be updated, and all its valid records are older than that date. */
  lemma LastArchiveMovesBackIff(lastArchive: int, valid: seq<Record>, now: int, answers: Answers)
    ensures NextLastArchive(lastArchive, valid, now, answers) < lastArchive <==>
      && Succeeds(valid, now, answers) && answers.update
      && lastArchive > 0 && forall r :: r in valid ==> r.time < lastArchive
  {
    hide Newest, Succeeds;
    NewestBelow(valid, lastArchive);
  }

  /** A page without any valid record deletes nothing, inserts nothing, and still moves the
      date of the last archive: back to the epoch. */
  lemma EmptyPageResets(rows: Rows, lastArchive: int, records: seq<Record>, now: int, clock: int, answers: Answers)
    requires now >= SECONDS_PER_DAY && forall r :: r in records ==> !LooksValid(r, clock)
    ensures var valid := ValidOnes(records, clock);
      && Newest(valid) == 0 && (Succeeds(valid, now, answers) <==> answers.batch)
      && Uploaded(rows, valid, now, answers.deletion) == rows
      && NextLastArchive(lastArchive, valid, now, answers) == if answers.batch && answers.update then 0 else lastArchive
  {
    NoneIsValid(records, clock);
  }

  lemma {:induction false} NoneIsValid(records: seq<Record>, clock: int)
    requires forall r :: r in records ==> !LooksValid(r, clock)
    ensures ValidOnes(records, clock) == []
  {
    if records == [] {
    } else {
      NoneIsValid(records[..|records| - 1], clock);
    }
  }
}

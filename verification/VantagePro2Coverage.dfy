/** End to end: what a VantagePro2 station has recorded and what the databases hold. The
    station answers each archive request with its later records, in pages, in order. */
module VantagePro2Coverage {
  import opened Common
  import opened VantagePro2ArchivePages
  import opened VantagePro2Protocol
  import opened VantagePro2Runs
  import S = VantagePro2Scenarios

  // ----------------------------------------------------------------- an honest station

  /** Proper records, in the order of their times. */
  predicate IsArchive(archive: seq<DataPoint>) {
    && (forall p :: p in archive ==> !p.dash && !p.blank)
    && forall i, j :: 0 <= i < j < |archive| ==> archive[i].time < archive[j].time
  }

  /** The records of an archive later than a date, cut into chunks, in order. */
  predicate HoldsLater(archive: seq<DataPoint>, since: int, chunks: seq<seq<DataPoint>>) {
    && (forall p :: p in archive && p.time > since ==> exists i :: 0 <= i < |chunks| && p in chunks[i])
    && (forall i, p :: 0 <= i < |chunks| && p in chunks[i] ==> p in archive && p.time > since)
    && forall i, j, p, q :: 0 <= i < j < |chunks| && p in chunks[i] && q in chunks[j] ==> p.time < q.time
  }

  /** The clock of the station is not ahead. */
  predicate IsPast(p: DataPoint, clock: Clock) {
    Ticks(p.time) <= clock.relevance && Ticks(p.time) < clock.validity
  }

  /** A page carries a chunk. What else is on it is a dash or was not asked for: the first
      page may begin, and the last one end, with older records. */
  predicate Carries(points: seq<DataPoint>, chunk: seq<DataPoint>, since: int, clock: Clock) {
    && (forall p :: p in chunk ==> p in points && IsPast(p, clock))
    && forall p :: p in points ==> p in chunk || p.dash || p.time <= since
  }

  /** An event, what the station has recorded by then, and, when the event announces a
      number of pages, the chunks to come. */
  datatype Visit = Visit(event: Event, archive: seq<DataPoint>, chunks: seq<seq<DataPoint>>)

  /** A session, and what the station had recorded and announced at the last request. */
  datatype Dialogue = Dialogue(session: Session, archive: seq<DataPoint>, chunks: seq<seq<DataPoint>>)

  predicate Announces(s: Session, e: Event) {
    e.Done? && s.pending.Operation? && s.open && s.state.WAITING_ARCHIVE_NB_PAGES? && e.input.size.valid
  }

  predicate Sends(s: Session, e: Event) {
    e.Done? && s.pending.Operation? && s.open && s.state.WAITING_ARCHIVE_PAGE? && e.input.page.valid
  }

  function Meet(d: Dialogue, v: Visit): Dialogue {
    var t := Step(d.session, v.event);
    if Announces(d.session, v.event) then Dialogue(t, v.archive, v.chunks) else d.(session := t)
  }

  /** Damaged announcements and pages are honest, since they are refused. The date stored
      for a station is not before the epoch. */
  predicate Honest(d: Dialogue, v: Visit) {
    && IsArchive(v.archive)
    && (v.event.Done? && d.session.state.WAITING_DATA_STATION? && v.event.input.station.Known? ==>
          v.event.input.station.lastArchive >= 0)
    && (Announces(d.session, v.event) ==>
          v.event.input.size.pages == |v.chunks| && HoldsLater(v.archive, d.session.lastArchive, v.chunks))
    && (Sends(d.session, v.event) && 0 < d.session.pagesLeft <= |d.chunks| ==>
          Carries(v.event.input.page.points, d.chunks[|d.chunks| - d.session.pagesLeft], d.session.lastArchive,
                  v.event.input.clock))
  }

  function Meetings(d: Dialogue, visits: seq<Visit>): Dialogue {
    if visits == [] then d else Meet(Meetings(d, visits[..|visits| - 1]), visits[|visits| - 1])
  }

  /** What the station has recorded after some visits. */
  function Recorded(visits: seq<Visit>): seq<DataPoint> {
    if visits == [] then [] else visits[|visits| - 1].archive
  }

  /** The station is honest at each visit, and only ever adds records to its archive. */
  predicate HonestRun(d: Dialogue, visits: seq<Visit>) {
    forall n :: 0 <= n < |visits| ==>
      Honest(Meetings(d, visits[..n]), visits[n]) && Recorded(visits[..n]) <= visits[n].archive
  }

  // -------------------------------------------------------------------- what is caught

  /** Each record after the beginning and up to the most recent date is in both databases,
      and the next request asks for no more than what is missing. */
  predicate UpToDate(s: Session, archive: seq<DataPoint>) {
    && 0 <= s.beginning <= s.mostRecent && s.lastArchive <= s.mostRecent && s.newest <= s.mostRecent
    && (s.mostRecent == s.beginning || exists q :: q in archive && q.time == s.mostRecent)
    && forall p :: p in archive && s.beginning < p.time <= s.mostRecent ==>
         p in ReadAll(s.trace).rows && p in ReadAll(s.trace).batched
  }

  /** The chunks of the pages accepted are not after the most recent date. */
  predicate InProgress(s: Session, archive: seq<DataPoint>, chunks: seq<seq<DataPoint>>) {
    && 0 <= s.pagesLeft <= |chunks| && HoldsLater(archive, s.lastArchive, chunks)
    && forall i, p :: 0 <= i < |chunks| - s.pagesLeft && p in chunks[i] ==> p.time <= s.mostRecent
  }

  /** Each record after the beginning and up to the last watermark is in both databases,
      whether the session has ended or not. */
  predicate Marked(t: Trace, archive: seq<DataPoint>) {
    var r := ReadAll(t);
    r.mark.Some? ==>
      && (r.mark.value <= r.beginning || exists q :: q in archive && q.time == r.mark.value)
      && forall p :: p in archive && r.beginning < p.time <= r.mark.value ==> p in r.rows && p in r.batched
  }

  predicate Caught(d: Dialogue, archive: seq<DataPoint>) {
    var s := d.session;
    && d.archive <= archive && IsArchive(archive) && Marked(s.trace, archive)
    && (s.open ==>
          && 0 <= s.lastArchive
          && (Prepped(s.state) ==> UpToDate(s, archive))
          && (Downloading(s.state) ==> InProgress(s, d.archive, d.chunks)))
  }

  lemma LaterRecords(before: seq<DataPoint>, archive: seq<DataPoint>, p: DataPoint, q: DataPoint)
    requires IsArchive(archive) && before <= archive && p in archive && q in before && p.time <= q.time
    ensures p in before
  {
    var i :| 0 <= i < |archive| && archive[i] == p;
    var j :| 0 <= j < |before| && before[j] == q;
    assert archive[j] == q;
    if i < |before| {
      assert before[i] == p;
    }
  }

  lemma PrefixIsProper(before: seq<DataPoint>, archive: seq<DataPoint>)
    requires IsArchive(archive) && before <= archive
    ensures forall p :: p in before ==> p in archive && !p.dash && !p.blank
  {
    forall p | p in before ensures p in archive {
      var i :| 0 <= i < |before| && before[i] == p;
      assert archive[i] == p;
    }
  }

  lemma ChunksInOrder(before: seq<DataPoint>, since: int, chunks: seq<seq<DataPoint>>, i: nat, j: nat,
                      p: DataPoint, q: DataPoint)
    requires HoldsLater(before, since, chunks) && i < j < |chunks| && p in chunks[i] && q in chunks[j]
    ensures p.time < q.time
  {
  }

  /** Where a record that has not been seen is, when a later one is at hand. */
  lemma ChunkOf(before: seq<DataPoint>, since: int, chunks: seq<seq<DataPoint>>, k: nat, p: DataPoint, q: DataPoint)
    requires HoldsLater(before, since, chunks) && k < |chunks| && p in before && since < p.time <= q.time
    requires q in chunks[k] && forall i, x :: 0 <= i < k && x in chunks[i] ==> x.time < p.time
    ensures p in chunks[k]
  {
    var i :| 0 <= i < |chunks| && p in chunks[i];
    if k < i {
      ChunksInOrder(before, since, chunks, k, i, q, p);
    }
  }

  /** What is recorded later is after all that has been seen. */
  lemma GrowingKeeps(s: Session, before: seq<DataPoint>, archive: seq<DataPoint>)
    requires UpToDate(s, before) && before <= archive && IsArchive(archive)
    ensures UpToDate(s, archive)
  {
    hide ReadAll, IsArchive;
    if s.mostRecent == s.beginning {
    } else {
      var q :| q in before && q.time == s.mostRecent;
      assert q in archive by {
        var j :| 0 <= j < |before| && before[j] == q;
        assert archive[j] == q;
      }
      forall p | p in archive && s.beginning < p.time <= s.mostRecent
        ensures p in ReadAll(s.trace).rows && p in ReadAll(s.trace).batched
      {
        LaterRecords(before, archive, p, q);
      }
    }
  }

  lemma GrowingKeepsMark(t: Trace, before: seq<DataPoint>, archive: seq<DataPoint>)
    requires Marked(t, before) && before <= archive && IsArchive(archive)
    ensures Marked(t, archive)
  {
    hide ReadAll, IsArchive;
    var r := ReadAll(t);
    if r.mark.None? || r.mark.value <= r.beginning {
    } else {
      var q :| q in before && q.time == r.mark.value;
      assert q in archive by {
        var j :| 0 <= j < |before| && before[j] == q;
        assert archive[j] == q;
      }
      forall p | p in archive && r.beginning < p.time <= r.mark.value ensures p in r.rows && p in r.batched {
        LaterRecords(before, archive, p, q);
      }
    }
  }

  // ------------------------------------------------------------------------- a new page

  /** After an accepted page, nothing is missing up to the new most recent date. */
  lemma NewPage(s: Session, t: Session, archive: seq<DataPoint>, before: seq<DataPoint>, chunks: seq<seq<DataPoint>>,
                points: seq<DataPoint>, clock: Clock)
    requires UpToDate(s, archive) && IsArchive(archive) && before <= archive
    requires InProgress(s, before, chunks) && s.pagesLeft > 0
    requires Carries(points, chunks[|chunks| - s.pagesLeft], s.lastArchive, clock)
    requires t.beginning == s.beginning && t.lastArchive == s.lastArchive && t.pagesLeft == s.pagesLeft - 1
    requires t.mostRecent == Latest(points, s.mostRecent, s.beginning, clock)
    requires t.newest <= t.mostRecent
    requires ReadAll(s.trace).rows <= ReadAll(t.trace).rows && ReadAll(s.trace).batched <= ReadAll(t.trace).batched
    requires forall p :: p in points && Wanted(p, s.beginning, clock) ==>
      p in ReadAll(t.trace).rows && p in ReadAll(t.trace).batched
    ensures UpToDate(t, archive) && InProgress(t, before, chunks)
  {
    hide ReadAll, Latest, IsArchive, HoldsLater;
    LatestIsRelevant(points, s.mostRecent, s.beginning, clock);
    PrefixIsProper(before, archive);
    ChunkIsSeen(s, t, before, chunks, points, clock);
    MostRecentIsRecorded(s, t, before, archive, chunks, points, clock);
    forall p | p in archive && t.beginning < p.time <= t.mostRecent
      ensures p in ReadAll(t.trace).rows && p in ReadAll(t.trace).batched
    {
      if p.time > s.mostRecent {
        NewRecordIsOnThePage(s, t, archive, before, chunks, points, clock, p);
      }
    }
  }

  lemma ChunkIsSeen(s: Session, t: Session, before: seq<DataPoint>, chunks: seq<seq<DataPoint>>,
                    points: seq<DataPoint>, clock: Clock)
    requires InProgress(s, before, chunks) && s.pagesLeft > 0 && s.lastArchive <= s.mostRecent
    requires forall p :: p in before ==> !p.dash
    requires Carries(points, chunks[|chunks| - s.pagesLeft], s.lastArchive, clock)
    requires t.mostRecent == Latest(points, s.mostRecent, s.beginning, clock)
    requires s.beginning <= s.mostRecent
    requires t.lastArchive == s.lastArchive && t.pagesLeft == s.pagesLeft - 1
    ensures InProgress(t, before, chunks)
  {
    LatestIsRelevant(points, s.mostRecent, s.beginning, clock);
    hide Latest;
    var k := |chunks| - s.pagesLeft;
    forall i, p | 0 <= i < |chunks| - t.pagesLeft && p in chunks[i] ensures p.time <= t.mostRecent {
      if i == k && p.time > s.mostRecent {
        assert p in points && Relevant(p, s.beginning, clock);
      }
    }
  }

  lemma MostRecentIsRecorded(s: Session, t: Session, before: seq<DataPoint>, archive: seq<DataPoint>,
                             chunks: seq<seq<DataPoint>>, points: seq<DataPoint>, clock: Clock)
    requires UpToDate(s, archive) && before <= archive && InProgress(s, before, chunks) && s.pagesLeft > 0
    requires Carries(points, chunks[|chunks| - s.pagesLeft], s.lastArchive, clock)
    requires t.beginning == s.beginning && t.mostRecent == Latest(points, s.mostRecent, s.beginning, clock)
    ensures t.mostRecent == t.beginning || exists q :: q in archive && q.time == t.mostRecent
    ensures t.mostRecent > s.mostRecent ==>
      exists q :: q in chunks[|chunks| - s.pagesLeft] && q.time == t.mostRecent
  {
    LatestIsRelevant(points, s.mostRecent, s.beginning, clock);
    hide Latest, ReadAll;
    if t.mostRecent > s.mostRecent {
      var q :| q in points && Relevant(q, s.beginning, clock) && q.time == t.mostRecent;
      assert q in chunks[|chunks| - s.pagesLeft];
      assert q in before;
      var j :| 0 <= j < |before| && before[j] == q;
      assert archive[j] == q;
    }
  }

  lemma NewRecordIsInTheChunk(s: Session, archive: seq<DataPoint>, before: seq<DataPoint>,
                              chunks: seq<seq<DataPoint>>, p: DataPoint, q: DataPoint)
    requires IsArchive(archive) && before <= archive && s.lastArchive <= s.mostRecent
    requires InProgress(s, before, chunks) && s.pagesLeft > 0
    requires q in chunks[|chunks| - s.pagesLeft] && p in archive && s.mostRecent < p.time <= q.time
    ensures p in chunks[|chunks| - s.pagesLeft]
  {
    hide IsArchive, HoldsLater;
    var k := |chunks| - s.pagesLeft;
    InBefore(before, s.lastArchive, chunks, k, q);
    LaterRecords(before, archive, p, q);
    ChunkOf(before, s.lastArchive, chunks, k, p, q);
  }

  lemma NewRecordIsOnThePage(s: Session, t: Session, archive: seq<DataPoint>, before: seq<DataPoint>,
                             chunks: seq<seq<DataPoint>>, points: seq<DataPoint>, clock: Clock, p: DataPoint)
    requires UpToDate(s, archive) && IsArchive(archive) && before <= archive
    requires InProgress(s, before, chunks) && s.pagesLeft > 0
    requires Carries(points, chunks[|chunks| - s.pagesLeft], s.lastArchive, clock)
    requires t.beginning == s.beginning && t.mostRecent == Latest(points, s.mostRecent, s.beginning, clock)
    requires p in archive && s.mostRecent < p.time <= t.mostRecent
    ensures p in points && Wanted(p, s.beginning, clock)
  {
    hide Latest, ReadAll, IsArchive, HoldsLater;
    MostRecentIsRecorded(s, t, before, archive, chunks, points, clock);
    ArchiveIsProper(archive, p);
    hide InProgress;
    var q :| q in chunks[|chunks| - s.pagesLeft] && q.time == t.mostRecent;
    NewRecordIsInTheChunk(s, archive, before, chunks, p, q);
  }

  lemma ArchiveIsProper(archive: seq<DataPoint>, p: DataPoint)
    requires IsArchive(archive) && p in archive
    ensures !p.dash && !p.blank
  {
  }

  lemma InBefore(before: seq<DataPoint>, since: int, chunks: seq<seq<DataPoint>>, k: nat, q: DataPoint)
    requires HoldsLater(before, since, chunks) && k < |chunks| && q in chunks[k]
    ensures q in before && q.time > since
  {
  }

  // ------------------------------------------------------------- events that store nothing

  predicate SameRows(t: Trace, u: Trace) {
    && ReadAll(u).rows == ReadAll(t).rows && ReadAll(u).batched == ReadAll(t).batched
    && ReadAll(u).mark == ReadAll(t).mark && ReadAll(u).beginning == ReadAll(t).beginning
  }

  lemma SameRowsMarked(t: Trace, u: Trace, archive: seq<DataPoint>)
    requires Marked(t, archive) && SameRows(t, u)
    ensures Marked(u, archive)
  {
    hide ReadAll;
  }

  lemma LogKeepsRows(s: Session, a: Action)
    requires !a.Inserted? && !a.Batched? && !a.Watermark? && !a.Prepared?
    ensures SameRows(s.trace, Log(s, a).trace) && Log(s, a) == s.(trace := Log(s, a).trace)
  {
    ReadThen(s.trace, a);
    hide ReadAll, Justified, NextDownload, Latest;
  }

  predicate Follows(st: State, next: State) {
    (Prepped(next) ==> Prepped(st)) && (Downloading(next) ==> Downloading(st))
  }

  /** Nothing that matters to the coverage changes, unless the session ends. */
  predicate Quiet(s: Session, t: Session) {
    && SameRows(s.trace, t.trace)
    && (t.open ==>
          && s.open && t.beginning == s.beginning && t.mostRecent == s.mostRecent && t.newest == s.newest
          && t.lastArchive == s.lastArchive && Follows(s.state, t.state)
          && (Downloading(t.state) ==> t.pagesLeft == s.pagesLeft))
  }

  lemma QuietCatches(d: Dialogue, t: Session, archive: seq<DataPoint>)
    requires Caught(d, archive) && Quiet(d.session, t)
    ensures Caught(d.(session := t), archive)
  {
    hide IsArchive, HoldsLater, ReadAll, Prepped, Downloading, Marked;
    SameRowsMarked(d.session.trace, t.trace, archive);
  }

  lemma QuietMove(s: Session, next: State, m: Message)
    requires Follows(s.state, next)
    ensures Quiet(s, Await(Goto(s, next))) && Quiet(s, Send(Goto(s, next), m))
  {
    hide Follows, Log, ReadAll;
    LogKeepsRows(Goto(s, next), Sent(m));
  }

  lemma QuietClose(s: Session)
    ensures !Close(s).open && Quiet(s, Close(s))
  {
    hide SameRows, Follows, Log;
    LogKeepsRows(s, Closed);
  }

  /** What is pending, counted or flagged makes no difference. */
  predicate SameButCounts(s: Session, t: Session) {
    t == s.(pending := t.pending, timeouts := t.timeouts, errors := t.errors, ack := t.ack,
            coordsValid := t.coordsValid, polling := t.polling,
            setTimeRequested := t.setTimeRequested, setTimeArmed := t.setTimeArmed)
  }

  lemma QuietCounts(s: Session, t: Session)
    requires SameButCounts(s, t)
    ensures Quiet(s, t)
  {
    hide ReadAll, Prepped, Downloading;
  }

  lemma CountsThen(s: Session, t: Session, u: Session)
    requires SameButCounts(s, t) && Quiet(t, u)
    ensures Quiet(s, u)
  {
    hide SameRows, Follows, Downloading;
  }

  lemma BesideFollows(st: State, next: State)
    requires Beside(st, next)
    ensures Follows(st, next)
  {
    hide Prepped, Downloading;
  }

  lemma QuietError(s: Session, restart: State)
    ensures Quiet(s, RetryAfterError(s, restart))
  {
    hide Quiet, Close;
    var t := s.(errors := s.errors + 1);
    QuietCounts(s, t.(pending := Flush(restart)));
    QuietClose(t);
    CountsThen(s, t, Close(t));
  }

  lemma QuietTimeout(s: Session, restart: State)
    requires IsRestart(restart) && RestartOf(s.state) == restart
    ensures Quiet(s, RetryAfterTimeout(s, restart))
  {
    hide Quiet, Close, IsRestart, RestartOf;
    var t := s.(timeouts := s.timeouts + 1);
    QuietClose(t);
    RestartFollows(s.state, restart);
    QuietGoto(t, restart, Flush(restart));
    CountsThen(s, t, Close(t));
    CountsThen(s, t, t.(state := restart, pending := Flush(restart)));
  }

  lemma RestartFollows(st: State, restart: State)
    requires IsRestart(restart) && RestartOf(st) == restart
    ensures Follows(st, restart)
  {
    hide IsRestart, RestartOf, Prepped, Downloading;
    RestartFacts(st, restart);
  }

  lemma QuietGoto(s: Session, next: State, pending: Pending)
    requires Follows(s.state, next)
    ensures Quiet(s, s.(state := next, pending := pending))
  {
    hide Follows, ReadAll, Downloading;
    QuietMove(s, next, Echo);
  }

  lemma QuietWait(s: Session)
    requires Prepped(s.state)
    ensures Quiet(s, WaitForNextMeasure(s)) && Quiet(s, TimeSet(s))
  {
    hide ReadAll;
  }

  /** A state that reads an acknowledgement, and asks again or moves on. */
  lemma QuietRetryOrMove(s: Session, restart: State, next: State, m: Message)
    requires Beside(s.state, next)
    ensures Quiet(s, RetryAfterError(s, restart)) && Quiet(s, Await(Goto(s, next))) && Quiet(s, Send(Goto(s, next), m))
  {
    hide Quiet, Beside, Follows, RetryAfterError, Send, Await, Goto;
    BesideFollows(s.state, next);
    QuietError(s, restart);
    QuietMove(s, next, m);
  }

  lemma QuietIdentification(s: Session, input: Input)
    requires s.state.SENDING_WAKE_UP_STATION? || s.state.WAITING_ECHO_STATION?
          || s.state.SENDING_REQ_STATION? || s.state.WAITING_ACK_STATION?
    ensures Quiet(s, OnSuccess(s, input))
  {
    hide Quiet, Beside, OnSuccess, RetryAfterError, Send, Await, Goto;
    OnIdentification(s, input);
    BesideOpening();
    if s.state.SENDING_WAKE_UP_STATION? {
      QuietRetryOrMove(s, STOPPED, WAITING_ECHO_STATION, Echo);
    } else if s.state.WAITING_ECHO_STATION? {
      QuietRetryOrMove(s, STOPPED, SENDING_REQ_STATION, GetStation);
    } else if s.state.SENDING_REQ_STATION? {
      QuietRetryOrMove(s, STOPPED, WAITING_ACK_STATION, Echo);
    } else {
      QuietRetryOrMove(s, SENDING_REQ_STATION, WAITING_DATA_STATION, Echo);
    }
  }

  lemma QuietConfiguration(s: Session, input: Input)
    requires s.state.SENDING_REQ_MAIN_MODE? || s.state.WAITING_ACK_MAIN_MODE? || s.state.SENDING_REQ_TIMEZONE?
          || s.state.WAITING_ACK_TIMEZONE?
    ensures Quiet(s, OnSuccess(s, input))
  {
    hide Quiet, Beside, OnSuccess, RetryAfterError, Send, Await, Goto;
    OnConfiguration(s, input);
    BesideOpening();
    if s.state.SENDING_REQ_MAIN_MODE? {
      QuietRetryOrMove(s, STOPPED, WAITING_ACK_MAIN_MODE, Echo);
    } else if s.state.WAITING_ACK_MAIN_MODE? {
      QuietRetryOrMove(s, STOPPED, SENDING_REQ_TIMEZONE, GetTimezone);
    } else if s.state.SENDING_REQ_TIMEZONE? {
      QuietRetryOrMove(s, STOPPED, WAITING_ACK_TIMEZONE, Echo);
    } else {
      QuietRetryOrMove(s, SENDING_REQ_TIMEZONE, WAITING_DATA_TIMEZONE, Echo);
    }
  }

  lemma QuietRequest(s: Session, input: Input)
    requires s.state.SENDING_WAKE_UP_ARCHIVE? || s.state.WAITING_ECHO_ARCHIVE? || s.state.SENDING_REQ_ARCHIVE?
          || s.state.WAITING_ACK_ARCHIVE?
    ensures Quiet(s, OnSuccess(s, input))
  {
    hide Quiet, Beside, OnSuccess, RetryAfterError, Send, Await, Goto;
    OnRequest(s, input);
    BesideRequest();
    if s.state.SENDING_WAKE_UP_ARCHIVE? {
      QuietRetryOrMove(s, STOPPED, WAITING_ECHO_ARCHIVE, Echo);
    } else if s.state.WAITING_ECHO_ARCHIVE? {
      QuietRetryOrMove(s, STOPPED, SENDING_REQ_ARCHIVE, GetArchive);
    } else if s.state.SENDING_REQ_ARCHIVE? {
      QuietRetryOrMove(s, STOPPED, WAITING_ACK_ARCHIVE, Echo);
    } else {
      QuietRetryOrMove(s, SENDING_REQ_ARCHIVE, SENDING_ARCHIVE_PARAMS, ArchiveParams(s.lastArchive));
    }
  }

  lemma QuietSetTime(s: Session, input: Input)
    requires s.state.SENDING_WAKE_UP_SETTIME? || s.state.WAITING_ECHO_SETTIME? || s.state.SENDING_SETTIME?
          || s.state.WAITING_ACK_SETTIME?
    ensures Quiet(s, OnSuccess(s, input))
  {
    hide Quiet, Beside, OnSuccess, RetryAfterError, Send, Await, Goto;
    OnSetTime(s, input);
    BesideSetTime();
    if s.state.SENDING_WAKE_UP_SETTIME? {
      QuietRetryOrMove(s, STOPPED, WAITING_ECHO_SETTIME, Echo);
    } else if s.state.WAITING_ECHO_SETTIME? {
      QuietRetryOrMove(s, STOPPED, SENDING_SETTIME, SetTime);
    } else if s.state.SENDING_SETTIME? {
      QuietRetryOrMove(s, STOPPED, WAITING_ACK_SETTIME, Echo);
    } else {
      QuietRetryOrMove(s, SENDING_SETTIME, SENDING_SETTIME_PARAMS, SetTimeParams);
    }
  }

  lemma QuietEnd(s: Session, input: Input)
    requires s.state.SENDING_SETTIME_PARAMS? || s.state.SENDING_ABORT_ARCHIVE_DOWNLOAD?
          || s.state.WAITING_NEXT_MEASURE_TICK? || s.state.WAITING_ACK_TIME_SET?
    ensures Quiet(s, OnSuccess(s, input))
  {
    hide Quiet, Beside, OnSuccess, Await, Goto, WaitForNextMeasure, TimeSet, Prepped;
    OnEnd(s, input);
    BesideSetTime();
    EndsArePrepped();
    if s.state.SENDING_SETTIME_PARAMS? {
      QuietRetryOrMove(s, STOPPED, WAITING_ACK_TIME_SET, Echo);
    } else {
      QuietWait(s);
    }
  }

  lemma QuietInvalidPage(s: Session)
    requires Downloading(s.state)
    ensures Quiet(s, InvalidPage(s))
  {
    hide ReadAll, SameRows, Log;
    var t := s.(errors := s.errors + 1, state := SENDING_ARCHIVE_PAGE_ANSWER);
    var u := Log(t, Rejected);
    LogKeepsRows(t, Rejected);
    LogKeepsRows(u, Sent(Nak));
    LogKeepsRows(u, Closed);
    LogKeepsRows(Close(u), Sent(Nak));
    TwiceSame(s.trace, u.trace, Log(u, Sent(Nak)).trace);
    TwiceSame(s.trace, u.trace, Close(u).trace);
    TwiceSame(s.trace, Close(u).trace, Log(Close(u), Sent(Nak)).trace);
  }

  lemma TwiceSame(a: Trace, b: Trace, c: Trace)
    requires SameRows(a, b) && SameRows(b, c)
    ensures SameRows(a, c)
  {
  }

  lemma QuietAborted(s: Session, input: Input)
    requires s.state.WAITING_ARCHIVE_NB_PAGES? && !input.size.valid
    ensures Quiet(s, SizeReceived(s, input))
  {
    hide ReadAll, SameRows, Log, Prepped;
    BesideParameters();
    BesideFollows(s.state, SENDING_ABORT_ARCHIVE_DOWNLOAD);
    LogKeepsRows(s.(pagesLeft := input.size.pages, state := SENDING_ABORT_ARCHIVE_DOWNLOAD), Sent(Abort));
  }

  /** The other states of a download. */
  lemma QuietDownload(s: Session, input: Input)
    requires s.state.SENDING_ARCHIVE_PARAMS? || s.state.WAITING_ACK_ARCHIVE_PARAMS?
          || (s.state.WAITING_ARCHIVE_NB_PAGES? && !input.size.valid)
          || (s.state.WAITING_ARCHIVE_PAGE? && !input.page.valid)
          || ((s.state.SENDING_ACK_ARCHIVE_DOWNLOAD? || s.state.SENDING_ARCHIVE_PAGE_ANSWER?) && s.pagesLeft != 0)
    ensures Quiet(s, OnSuccess(s, input))
  {
    hide Quiet, Beside, OnSuccess, Close, Await, Goto, SizeReceived, InvalidPage;
    OnDownload(s, input);
    if s.state.SENDING_ARCHIVE_PARAMS? {
      BesideParameters();
      QuietRetryOrMove(s, STOPPED, WAITING_ACK_ARCHIVE_PARAMS, Echo);
    } else if s.state.WAITING_ACK_ARCHIVE_PARAMS? {
      BesideParameters();
      QuietClose(s);
      QuietRetryOrMove(s, STOPPED, WAITING_ARCHIVE_NB_PAGES, Echo);
    } else if s.state.WAITING_ARCHIVE_NB_PAGES? {
      QuietAborted(s, input);
    } else if s.state.WAITING_ARCHIVE_PAGE? {
      QuietInvalidPage(s);
    } else {
      QuietMove(s, WAITING_ARCHIVE_PAGE, Echo);
    }
  }

  /** The completions that change what is covered. */
  predicate Matters(s: Session, input: Input) {
    || s.state.WAITING_DATA_STATION? || s.state.WAITING_DATA_TIMEZONE?
    || (s.state.WAITING_ARCHIVE_NB_PAGES? && input.size.valid)
    || (s.state.WAITING_ARCHIVE_PAGE? && input.page.valid)
    || ((s.state.SENDING_ACK_ARCHIVE_DOWNLOAD? || s.state.SENDING_ARCHIVE_PAGE_ANSWER?) && s.pagesLeft == 0)
  }

  lemma QuietSuccess(s: Session, input: Input)
    requires !Matters(s, input) && !s.state.STARTING? && !s.state.STOPPED?
    ensures Quiet(s, OnSuccess(s, input))
  {
    hide Quiet, OnSuccess;
    match s.state
    case SENDING_WAKE_UP_STATION | WAITING_ECHO_STATION | SENDING_REQ_STATION | WAITING_ACK_STATION =>
      QuietIdentification(s, input);
    case SENDING_REQ_MAIN_MODE | WAITING_ACK_MAIN_MODE | SENDING_REQ_TIMEZONE | WAITING_ACK_TIMEZONE =>
      QuietConfiguration(s, input);
    case SENDING_WAKE_UP_ARCHIVE | WAITING_ECHO_ARCHIVE | SENDING_REQ_ARCHIVE | WAITING_ACK_ARCHIVE =>
      QuietRequest(s, input);
    case SENDING_WAKE_UP_SETTIME | WAITING_ECHO_SETTIME | SENDING_SETTIME | WAITING_ACK_SETTIME =>
      QuietSetTime(s, input);
    case SENDING_SETTIME_PARAMS | SENDING_ABORT_ARCHIVE_DOWNLOAD | WAITING_NEXT_MEASURE_TICK | WAITING_ACK_TIME_SET =>
      QuietEnd(s, input);
    case _ => QuietDownload(s, input);
  }

  lemma QuietFault(s: Session, outcome: Outcome)
    requires outcome != Success && !s.state.STARTING?
    ensures Quiet(s, OnFault(s, outcome))
  {
    hide Quiet, RestartOf, RetryAfterTimeout, Close;
    QuietClose(s);
    if s.state.STOPPED? || s.state.WAITING_ACK_MAIN_MODE? || s.state.WAITING_ACK_TIME_SET?
      || s.state.WAITING_NEXT_MEASURE_TICK? {
      QuietIdleFault(s, outcome);
    } else {
      OnExchangeFault(s, outcome);
      if RestartOf(s.state) != STOPPED {
        RestartableIsExchange(s.state);
        QuietTimeout(s, RestartOf(s.state));
      }
      hide OnFault;
    }
  }

  lemma QuietIdleFault(s: Session, outcome: Outcome)
    requires s.state.STOPPED? || s.state.WAITING_ACK_MAIN_MODE? || s.state.WAITING_ACK_TIME_SET?
          || s.state.WAITING_NEXT_MEASURE_TICK?
    ensures Quiet(s, OnFault(s, outcome))
  {
    hide Quiet, HandleGenericErrors, Close, Send, Goto, WaitForNextMeasure, TimeSet, Prepped;
    EndsArePrepped();
    if s.state.STOPPED? {
      QuietCounts(s, s);
    } else if s.state.WAITING_ACK_MAIN_MODE? {
      GenericErrorsKeepRows(s, outcome, SENDING_REQ_MAIN_MODE);
      ClosesQuietly(s, HandleGenericErrors(s, outcome, SENDING_REQ_MAIN_MODE));
    } else {
      QuietWait(s);
      TickFollows();
      QuietMove(s, SENDING_WAKE_UP_ARCHIVE, Echo);
    }
  }

  lemma GenericErrorsKeepRows(s: Session, outcome: Outcome, restart: State)
    ensures SameRows(s.trace, HandleGenericErrors(s, outcome, restart).trace)
  {
    hide ReadAll, Log;
    LogKeepsRows(s, Closed);
    LogKeepsRows(s.(timeouts := s.timeouts + 1), Closed);
  }

  lemma TickFollows()
    ensures Follows(WAITING_NEXT_MEASURE_TICK, SENDING_WAKE_UP_ARCHIVE)
  {
  }

  lemma ClosesQuietly(s: Session, t: Session)
    requires SameRows(s.trace, t.trace)
    ensures Quiet(s, Close(t))
  {
    hide SameRows, Follows, Log;
    LogKeepsRows(t, Closed);
    TwiceSame(s.trace, t.trace, Close(t).trace);
  }

  // --------------------------------------------------------- events that change something

  lemma StationCatches(d: Dialogue, input: Input, archive: seq<DataPoint>)
    requires Caught(d, archive) && d.session.state.WAITING_DATA_STATION?
    requires input.station.Known? ==> input.station.lastArchive >= 0
    ensures Caught(d.(session := StationIdentified(d.session, input)), archive)
  {
    var s := d.session;
    var t := s.(coordsValid := input.coordsValid);
    if !input.coordsValid || input.station.Unknown? {
      hide Quiet, RetryAfterError, Close, Caught;
      QuietError(t, SENDING_REQ_STATION);
      QuietClose(t);
      CountsThen(s, t, StationIdentified(s, input));
      QuietCatches(d, StationIdentified(s, input), archive);
    } else {
      hide ReadAll, IsArchive, Log;
      LogFrame(t.(state := SENDING_REQ_MAIN_MODE, polling := input.station.polling,
                  lastArchive := input.station.lastArchive), Sent(MainMode));
    }
  }

  /** The page store is prepared: nothing is missing, since nothing lies in between. */
  lemma TimezoneCatches(d: Dialogue, input: Input, archive: seq<DataPoint>)
    requires Caught(d, archive) && d.session.state.WAITING_DATA_TIMEZONE? && d.session.open && d.session.newest <= 0
    requires ReadAll(d.session.trace).mark.None?
    ensures Caught(d.(session := TimezoneReceived(d.session, input)), archive)
  {
    var s := d.session;
    if !s.coordsValid {
      hide Quiet, RetryAfterError, Caught;
      QuietError(s, SENDING_REQ_TIMEZONE);
      QuietCatches(d, TimezoneReceived(s, input), archive);
    } else {
      PreparedIsUnmarked(s.trace, s.lastArchive, archive);
      TimezoneIs(s, input);
      hide TimezoneReceived, IsArchive, HoldsLater, Marked, ReadAll, Prepped;
    }
  }

  lemma TimezoneIs(s: Session, input: Input)
    requires s.open && s.coordsValid
    ensures var t := TimezoneReceived(s, input);
      && t.open && t.beginning == s.lastArchive && t.mostRecent == s.lastArchive && t.newest == s.newest
      && t.lastArchive == s.lastArchive && !Downloading(t.state)
      && t.trace == Then(Then(s.trace, Prepared(s.lastArchive)), Sent(Echo))
  {
    hide Log;
    var t := Log(s.(beginning := s.lastArchive, mostRecent := s.lastArchive), Prepared(s.lastArchive));
    LogFrame(s.(beginning := s.lastArchive, mostRecent := s.lastArchive), Prepared(s.lastArchive));
    LogFrame(Goto(t, SENDING_WAKE_UP_ARCHIVE), Sent(Echo));
    LogFrame(Goto(t, SENDING_WAKE_UP_SETTIME), Sent(Echo));
  }

  lemma PreparedIsUnmarked(t: Trace, date: int, archive: seq<DataPoint>)
    requires ReadAll(t).mark.None?
    ensures Marked(Then(Then(t, Prepared(date)), Sent(Echo)), archive)
  {
    hide ReadAll;
    ReadThen(t, Prepared(date));
    ReadThen(Then(t, Prepared(date)), Sent(Echo));
  }

  lemma UpToDateStays(s: Session, t: Session, archive: seq<DataPoint>)
    requires UpToDate(s, archive) && SameRows(s.trace, t.trace)
    requires t.beginning == s.beginning && t.mostRecent == s.mostRecent && t.newest == s.newest
    requires t.lastArchive <= t.mostRecent
    ensures UpToDate(t, archive)
  {
    hide ReadAll;
  }

  /** The station announces what it has recorded since the date asked for. */
  lemma SizeCatches(d: Dialogue, input: Input, archive: seq<DataPoint>, chunks: seq<seq<DataPoint>>)
    requires Caught(d, archive) && d.session.state.WAITING_ARCHIVE_NB_PAGES? && d.session.open
    requires input.size.valid && input.size.pages == |chunks| && HoldsLater(archive, d.session.lastArchive, chunks)
    ensures Caught(Dialogue(SizeReceived(d.session, input), archive, chunks), archive)
  {
    hide ReadAll, IsArchive, HoldsLater, Log, SameRows, UpToDate;
    var s := d.session;
    var t := s.(pagesLeft := input.size.pages);
    var u := Goto(Log(t, Announced(input.size.pages)), SENDING_ACK_ARCHIVE_DOWNLOAD);
    LogKeepsRows(t, Announced(input.size.pages));
    LogKeepsRows(u, Sent(Ack));
    TwiceSame(s.trace, u.trace, Log(u, Sent(Ack)).trace);
    RequestIsLate(d, archive);
    UpToDateStays(s, SizeReceived(s, input), archive);
    SameRowsMarked(s.trace, SizeReceived(s, input).trace, archive);
  }

  lemma RequestIsLate(d: Dialogue, archive: seq<DataPoint>)
    requires Caught(d, archive) && d.session.open && Prepped(d.session.state)
    ensures UpToDate(d.session, archive) && d.session.lastArchive <= d.session.mostRecent
  {
    hide ReadAll, IsArchive, Prepped, Downloading;
  }

  /** A page that could not be stored ends the session; one that could leaves nothing out. */
  lemma ValidPageCatches(d: Dialogue, input: Input, archive: seq<DataPoint>)
    requires Caught(d, archive) && d.session.state.WAITING_ARCHIVE_PAGE? && d.session.open
    requires d.session.pagesLeft > 0 && d.session.beginning == ReadAll(d.session.trace).beginning
    requires d.session.pagesLeft <= |d.chunks| ==>
      Carries(input.page.points, d.chunks[|d.chunks| - d.session.pagesLeft], d.session.lastArchive, input.clock)
    ensures Caught(d.(session := ValidPage(d.session, input)), archive)
  {
    hide ReadAll, IsArchive, HoldsLater, UpToDate, Store, Latest, Wanted, ValidPage, LogAccepted, LogInserted, Carries,
      Marked;
    var s := d.session;
    var r := Store(input.page.points, input.db, s.beginning, s.mostRecent, input.clock);
    var t := ValidPage(s, input);
    if r.ok {
      StoredPage(s, input);
      NewestFollows(s, archive);
      NewPage(s, t, archive, d.archive, d.chunks, input.page.points, input.clock);
      MarkMoves(s, t, archive);
    } else {
      UnstoredPageCloses(s, input);
      MarkStays(s.trace, t.trace, archive);
    }
  }

  lemma MarkStays(t: Trace, u: Trace, archive: seq<DataPoint>)
    requires Marked(t, archive)
    requires var r, q := ReadAll(t), ReadAll(u);
      q.mark == r.mark && q.beginning == r.beginning && r.rows <= q.rows && r.batched <= q.batched
    ensures Marked(u, archive)
  {
    hide ReadAll;
  }

  /** A new watermark is the most recent date. */
  lemma MarkMoves(s: Session, t: Session, archive: seq<DataPoint>)
    requires Marked(s.trace, archive) && UpToDate(t, archive)
    requires var r, q := ReadAll(s.trace), ReadAll(t.trace);
      && q.mark == (if t.mostRecent > s.newest then Some(t.mostRecent) else r.mark)
      && q.beginning == r.beginning == t.beginning && r.rows <= q.rows && r.batched <= q.batched
    ensures Marked(t.trace, archive)
  {
    if t.mostRecent <= s.newest {
      MarkStays(s.trace, t.trace, archive);
    }
    hide ReadAll;
  }

  lemma NewestFollows(s: Session, archive: seq<DataPoint>)
    requires UpToDate(s, archive)
    ensures s.newest <= s.mostRecent
  {
    hide ReadAll;
  }

  lemma UnstoredPageCloses(s: Session, input: Input)
    requires !Store(input.page.points, input.db, s.beginning, s.mostRecent, input.clock).ok && s.open
    ensures var r, t := ReadAll(s.trace), ValidPage(s, input);
      var u := ReadAll(t.trace);
      && !t.open && u.mark == r.mark && u.beginning == r.beginning && r.rows <= u.rows && r.batched <= u.batched
  {
    hide Store, LogInserted, ReadAll;
    var r := Store(input.page.points, input.db, s.beginning, s.mostRecent, input.clock);
    InsertedRows(s.trace, r.inserted);
    ReadThen(LogInserted(s.trace, r.inserted), Closed);
  }

  /** What an accepted page does to the dates and to the rows. */
  lemma StoredPage(s: Session, input: Input)
    requires s.open && Store(input.page.points, input.db, s.beginning, s.mostRecent, input.clock).ok
    ensures var t := ValidPage(s, input);
      && t.open && t.state.SENDING_ARCHIVE_PAGE_ANSWER? && t.beginning == s.beginning
      && t.lastArchive == s.lastArchive && t.pagesLeft == s.pagesLeft - 1
      && t.mostRecent == Latest(input.page.points, s.mostRecent, s.beginning, input.clock)
      && (s.newest <= s.mostRecent ==> t.newest <= t.mostRecent)
      && ReadAll(s.trace).rows <= ReadAll(t.trace).rows && ReadAll(s.trace).batched <= ReadAll(t.trace).batched
      && forall p :: p in input.page.points && Wanted(p, s.beginning, input.clock) ==>
           p in ReadAll(t.trace).rows && p in ReadAll(t.trace).batched
    ensures var r, u := ReadAll(s.trace), ReadAll(ValidPage(s, input).trace);
      && u.beginning == r.beginning
      && u.mark == if ValidPage(s, input).mostRecent > s.newest then Some(ValidPage(s, input).mostRecent) else r.mark
  {
    var points := input.page.points;
    AcceptedIsWanted(points, input.db, s.beginning, s.mostRecent, input.clock);
    hide Store, Wanted, ReadAll, ValidPage, LogAccepted, LogInserted;
    var r := Store(points, input.db, s.beginning, s.mostRecent, input.clock);
    TraceOfAccepted(s, input);
    InsertedRows(s.trace, r.inserted);
    AcceptedRows(LogInserted(s.trace, r.inserted), r.inserted, points, input.clock, r.mostRecent > s.newest,
                 r.mostRecent);
    hide Latest;
  }

  /** The next request asks for what follows the newest date. */
  lemma OverCatches(d: Dialogue, now: int, archive: seq<DataPoint>)
    requires Caught(d, archive) && Downloading(d.session.state) && d.session.open && d.session.newest >= 0
    ensures Caught(d.(session := DownloadOver(d.session, now)), archive)
  {
    hide ReadAll, IsArchive, HoldsLater, SameRows, UpToDate, Marked;
    var s, t := d.session, DownloadOver(d.session, now);
    OverKeeps(s, now);
    SameRowsMarked(s.trace, t.trace, archive);
    assert Prepped(s.state);
    NewestFollows(s, archive);
    UpToDateStays(s, t, archive);
    hide DownloadOver;
  }

  lemma OverKeeps(s: Session, now: int)
    ensures var t := DownloadOver(s, now);
      && t.open == s.open && t.beginning == s.beginning && t.mostRecent == s.mostRecent && t.newest == s.newest
      && t.lastArchive == s.newest && !Downloading(t.state) && SameRows(s.trace, t.trace)
  {
    hide ReadAll, Log, SameRows;
    var t := Log(s.(lastArchive := s.newest), Completed);
    var u := Log(t, JobPublished(t.oldest, t.newest));
    LogKeepsRows(s.(lastArchive := s.newest), Completed);
    LogKeepsRows(t, JobPublished(t.oldest, t.newest));
    LogKeepsRows(Goto(t, SENDING_WAKE_UP_SETTIME), Sent(Echo));
    LogKeepsRows(Goto(u, SENDING_WAKE_UP_SETTIME), Sent(Echo));
    TwiceSame(s.trace, t.trace, u.trace);
    TwiceSame(s.trace, t.trace, Log(Goto(t, SENDING_WAKE_UP_SETTIME), Sent(Echo)).trace);
    TwiceSame(s.trace, u.trace, Log(Goto(u, SENDING_WAKE_UP_SETTIME), Sent(Echo)).trace);
  }

  // ------------------------------------------------------------------------- every visit

  lemma GrowingCatches(d: Dialogue, before: seq<DataPoint>, archive: seq<DataPoint>)
    requires Caught(d, before) && before <= archive && IsArchive(archive)
    ensures Caught(d, archive)
  {
    hide ReadAll, IsArchive, Prepped, Downloading, InProgress, UpToDate, Marked;
    var s := d.session;
    GrowingKeepsMark(s.trace, before, archive);
    if s.open && Prepped(s.state) {
      GrowingKeeps(s, before, archive);
    }
  }

  lemma Reachable(s: Session)
    requires Inv(s)
    ensures !s.state.STARTING? && (s.open ==> !s.state.STOPPED? && s.newest >= 0)
    ensures s.open && s.state.WAITING_ARCHIVE_PAGE? ==> s.pagesLeft > 0 && s.beginning == ReadAll(s.trace).beginning
    ensures s.open && s.state.WAITING_DATA_TIMEZONE? ==> s.newest == 0 && ReadAll(s.trace).mark.None?
    ensures s.pending.Flush? ==> s.open && IsRestart(s.pending.restart) && RestartOf(s.state) == s.pending.restart
  {
    hide ReadAll;
  }

  function Idle(s: Session, input: Input): Session {
    s.(pending := Nothing, ack := if ReadsAck(s.state) then input.ack else s.ack)
  }

  lemma DoneStep(s: Session, input: Input)
    requires Enabled(s, Done(input))
    ensures Step(s, Done(input)) ==
      if Swallowed(s, Done(input)) then Await(Idle(s, input)) else OnSuccess(Idle(s, input), input)
  {
    hide OnSuccess, OnFault, IsLineEnd;
  }

  /** What a reachable session owes to its past, where something is about to matter. */
  predicate Steady(s: Session) {
    && !s.state.STARTING? && !s.state.STOPPED? && s.open && s.newest >= 0
    && (s.state.WAITING_ARCHIVE_PAGE? ==> s.pagesLeft > 0 && s.beginning == ReadAll(s.trace).beginning)
    && (s.state.WAITING_DATA_TIMEZONE? ==> s.newest == 0 && ReadAll(s.trace).mark.None?)
  }

  lemma IdleIsSteady(s: Session, input: Input)
    requires Inv(s) && s.open
    ensures Steady(Idle(s, input))
  {
    Reachable(s);
    hide Inv, ReadAll, ReadsAck;
  }

  /** What an honest station puts into a completion. */
  predicate Truthful(d: Dialogue, v: Visit, input: Input) {
    var s := d.session;
    && (s.state.WAITING_DATA_STATION? && input.station.Known? ==> input.station.lastArchive >= 0)
    && (s.state.WAITING_ARCHIVE_NB_PAGES? && input.size.valid ==>
          input.size.pages == |v.chunks| && HoldsLater(v.archive, s.lastArchive, v.chunks))
    && (s.state.WAITING_ARCHIVE_PAGE? && input.page.valid && 0 < s.pagesLeft <= |d.chunks| ==>
          Carries(input.page.points, d.chunks[|d.chunks| - s.pagesLeft], s.lastArchive, input.clock))
  }

  lemma HonestIsTruthful(d: Dialogue, v: Visit)
    requires Honest(d, v) && v.event.Done? && Enabled(d.session, v.event)
    ensures Truthful(d.(session := Idle(d.session, v.event.input)), v, v.event.input)
  {
    hide HoldsLater, Carries, IsArchive, ReadsAck;
  }

  function After(d: Dialogue, v: Visit, input: Input): Dialogue {
    var t := OnSuccess(d.session, input);
    if d.session.state.WAITING_ARCHIVE_NB_PAGES? && input.size.valid then Dialogue(t, v.archive, v.chunks)
    else d.(session := t)
  }

  lemma MeetingIs(d: Dialogue, v: Visit)
    requires v.event.Done? && Enabled(d.session, v.event)
    ensures Meet(d, v) ==
      if Swallowed(d.session, v.event) then d.(session := Await(Idle(d.session, v.event.input)))
      else After(d.(session := Idle(d.session, v.event.input)), v, v.event.input)
  {
    DoneStep(d.session, v.event.input);
    hide OnSuccess, Step, IsLineEnd;
  }

  /** A completion, once nothing is pending any more. */
  lemma SuccessCatches(d: Dialogue, v: Visit, input: Input)
    requires Caught(d, v.archive) && Steady(d.session) && Truthful(d, v, input)
    ensures Caught(After(d, v, input), v.archive)
  {
    var s := d.session;
    hide Caught, OnSuccess, Carries, HoldsLater, ReadAll, StationIdentified, TimezoneReceived, SizeReceived, ValidPage,
      DownloadOver;
    OnIdentification(s, input);
    OnConfiguration(s, input);
    OnDownload(s, input);
    if !Matters(s, input) {
      QuietSuccess(s, input);
      QuietCatches(d, OnSuccess(s, input), v.archive);
    } else if s.state.WAITING_DATA_STATION? {
      StationCatches(d, input, v.archive);
    } else if s.state.WAITING_DATA_TIMEZONE? {
      TimezoneCatches(d, input, v.archive);
    } else if s.state.WAITING_ARCHIVE_NB_PAGES? {
      SizeCatches(d, input, v.archive, v.chunks);
    } else if s.state.WAITING_ARCHIVE_PAGE? {
      ValidPageCatches(d, input, v.archive);
    } else {
      OverCatches(d, input.now, v.archive);
    }
  }

  lemma IdleCatches(d: Dialogue, input: Input, archive: seq<DataPoint>)
    requires Caught(d, archive)
    ensures Caught(d.(session := Idle(d.session, input)), archive)
    ensures Caught(d.(session := Await(Idle(d.session, input))), archive)
  {
    hide Caught, Quiet, ReadsAck;
    QuietCounts(d.session, Idle(d.session, input));
    QuietCounts(d.session, Await(Idle(d.session, input)));
    QuietCatches(d, Idle(d.session, input), archive);
    QuietCatches(d, Await(Idle(d.session, input)), archive);
  }

  lemma DoneCatches(d: Dialogue, v: Visit)
    requires Caught(d, v.archive) && Inv(d.session) && Honest(d, v) && v.event.Done? && Enabled(d.session, v.event)
    ensures Caught(Meet(d, v), v.archive)
  {
    var s, input := d.session, v.event.input;
    hide Caught, Inv, Honest, Meet, After, Truthful, Steady, Swallowed, Idle;
    MeetingIs(d, v);
    IdleCatches(d, input, v.archive);
    IdleIsSteady(s, input);
    HonestIsTruthful(d, v);
    SuccessCatches(d.(session := Idle(s, input)), v, input);
  }

  lemma FaultIsQuiet(s: Session, t: Session, outcome: Outcome)
    requires SameButCounts(s, t) && outcome != Success && !s.state.STARTING?
    ensures Quiet(s, OnFault(t, outcome))
  {
    hide Quiet, OnFault;
    QuietFault(t, outcome);
    CountsThen(s, t, OnFault(t, outcome));
  }

  lemma FlushIsQuiet(s: Session)
    requires s.pending.Flush? && IsRestart(s.pending.restart) && RestartOf(s.state) == s.pending.restart
    ensures Quiet(s, Restart(s.(pending := Nothing), s.pending.restart))
  {
    hide Quiet, Send, Goto, IsRestart, RestartOf, Follows;
    var t, restart := s.(pending := Nothing), s.pending.restart;
    RestartFollows(s.state, restart);
    QuietMove(t, restart, RequestOf(restart));
    CountsThen(s, t, Restart(t, restart));
  }

  lemma OtherStep(s: Session, e: Event)
    requires Enabled(s, e) && !e.Done?
    ensures Step(s, e) ==
      match e
      case Failed => if Swallowed(s, e) then s else OnFault(s.(pending := Nothing), Broken)
      case Deadline => OnFault(s.(pending := Nothing, timeouts := s.timeouts + 1), TimedOut)
      case FlushOver => Restart(s.(pending := Nothing), s.pending.restart)
      case SetTimeDue => s.(setTimeRequested := true, setTimeArmed := false)
      case StopRequest => Close(s)
  {
    hide OnFault, OnSuccess, Close, Restart, Swallowed;
  }

  lemma OtherwiseQuiet(s: Session, e: Event)
    requires Inv(s) && Enabled(s, e) && !e.Done?
    ensures Quiet(s, Step(s, e))
  {
    Reachable(s);
    hide Inv, Step, Quiet, OnFault, Close, Restart, IsRestart, RestartOf, Swallowed, SameButCounts;
    OtherStep(s, e);
    SameCounts(s);
    match e
    case Failed =>
      QuietCounts(s, s);
      FaultIsQuiet(s, s.(pending := Nothing), Broken);
    case Deadline => FaultIsQuiet(s, s.(pending := Nothing, timeouts := s.timeouts + 1), TimedOut);
    case FlushOver => FlushIsQuiet(s);
    case SetTimeDue => QuietCounts(s, s.(setTimeRequested := true, setTimeArmed := false));
    case StopRequest => QuietClose(s);
  }

  lemma SameCounts(s: Session)
    ensures SameButCounts(s, s) && SameButCounts(s, s.(pending := Nothing))
    ensures SameButCounts(s, s.(pending := Nothing, timeouts := s.timeouts + 1))
    ensures SameButCounts(s, s.(setTimeRequested := true, setTimeArmed := false))
  {
  }

  lemma MeetCatches(d: Dialogue, v: Visit, before: seq<DataPoint>)
    requires Caught(d, before) && Inv(d.session) && Honest(d, v) && before <= v.archive
    ensures Caught(Meet(d, v), v.archive) && Inv(Meet(d, v).session)
  {
    assert IsArchive(v.archive);
    StepKeeps(d.session, v.event);
    hide Caught, Inv, Step, Honest, IsArchive, Quiet;
    GrowingCatches(d, before, v.archive);
    if !Enabled(d.session, v.event) {
      DisabledMeeting(d, v);
    } else if v.event.Done? {
      DoneCatches(d, v);
    } else {
      OtherwiseQuiet(d.session, v.event);
      QuietCatches(d, Step(d.session, v.event), v.archive);
    }
  }

  lemma DisabledMeeting(d: Dialogue, v: Visit)
    requires !Enabled(d.session, v.event)
    ensures Meet(d, v) == d
  {
  }

  // ---------------------------------------------------------------------- the whole run

  function Opening(now: int, hasPublisher: bool): Dialogue {
    Dialogue(Started(now, hasPublisher), [], [])
  }

  lemma OpeningIsCaught(now: int, hasPublisher: bool)
    ensures Caught(Opening(now, hasPublisher), [])
  {
    ReadStart(now / SECOND);
    ReadSent(Trace.Start(now / SECOND), Echo);
    hide ReadAll;
  }

  lemma OpeningIsStarted(now: int, hasPublisher: bool)
    ensures Inv(Opening(now, hasPublisher).session)
  {
    StartedInv(now, hasPublisher);
    hide Inv;
  }

  lemma HonestFormer(d: Dialogue, visits: seq<Visit>)
    requires HonestRun(d, visits) && visits != []
    ensures var n := |visits| - 1;
      && HonestRun(d, visits[..n]) && Honest(Meetings(d, visits[..n]), visits[n])
      && Recorded(visits[..n]) <= visits[n].archive
  {
    hide Honest, Meetings, Recorded;
    var former := visits[..|visits| - 1];
    assert forall k :: 0 <= k < |former| ==> former[..k] == visits[..k];
  }

  lemma {:induction false} RunCatches(now: int, hasPublisher: bool, visits: seq<Visit>)
    requires HonestRun(Opening(now, hasPublisher), visits)
    ensures var d := Meetings(Opening(now, hasPublisher), visits);
      Caught(d, Recorded(visits)) && Inv(d.session)
  {
    hide Caught, Inv, Honest, HonestRun, Meet, Opening;
    if visits == [] {
      OpeningIsCaught(now, hasPublisher);
      OpeningIsStarted(now, hasPublisher);
    } else {
      var n := |visits| - 1;
      HonestFormer(Opening(now, hasPublisher), visits);
      RunCatches(now, hasPublisher, visits[..n]);
      MeetCatches(Meetings(Opening(now, hasPublisher), visits[..n]), visits[n], Recorded(visits[..n]));
    }
  }

  /** In every run with an honest station, while the session lasts: each record of the
      station after the stored date and up to the most recent date seen is in both
      databases, and that date is not before the newest one. */
  lemma NothingIsLeftBehind(now: int, hasPublisher: bool, visits: seq<Visit>)
    requires HonestRun(Opening(now, hasPublisher), visits)
    ensures var s := Meetings(Opening(now, hasPublisher), visits).session;
      s.open && Prepped(s.state) ==>
        && s.newest <= s.mostRecent
        && forall p :: p in Recorded(visits) && s.beginning < p.time <= s.mostRecent ==>
             p in ReadAll(s.trace).rows && p in ReadAll(s.trace).batched
  {
    hide Inv, HonestRun, Meetings, Opening, Recorded, ReadAll, Prepped;
    RunCatches(now, hasPublisher, visits);
  }

  /** A download is complete: once the last page announced has been accepted, every record
      after the stored date that the station had when it announced them is in both
      databases. */
  lemma CompletedDownloadHoldsAll(now: int, hasPublisher: bool, visits: seq<Visit>)
    requires HonestRun(Opening(now, hasPublisher), visits)
    ensures var d := Meetings(Opening(now, hasPublisher), visits);
      var s := d.session;
      s.open && Downloading(s.state) && s.pagesLeft == 0 ==>
        forall p :: p in d.archive && p.time > s.beginning ==>
          p in ReadAll(s.trace).rows && p in ReadAll(s.trace).batched
  {
    var d := Meetings(Opening(now, hasPublisher), visits);
    RunCatches(now, hasPublisher, visits);
    hide Inv, HonestRun, Meetings, Opening, Recorded, ReadAll;
    var s := d.session;
    if s.open && Downloading(s.state) && s.pagesLeft == 0 {
      AllSeen(s, d.archive, Recorded(visits), d.chunks);
    }
  }

  lemma AllSeen(s: Session, before: seq<DataPoint>, archive: seq<DataPoint>, chunks: seq<seq<DataPoint>>)
    requires UpToDate(s, archive) && before <= archive && IsArchive(archive)
    requires InProgress(s, before, chunks) && s.pagesLeft == 0
    ensures forall p :: p in before && p.time > s.beginning ==>
      p in ReadAll(s.trace).rows && p in ReadAll(s.trace).batched
  {
    PrefixIsProper(before, archive);
    hide ReadAll, IsArchive;
    forall p | p in before && p.time > s.beginning
      ensures p in ReadAll(s.trace).rows && p in ReadAll(s.trace).batched
    {
      if p.time > s.lastArchive {
        var i :| 0 <= i < |chunks| && p in chunks[i];
      }
    }
  }

  /** Across sessions: whatever happens, and when the session has ended too, each record of
      the station between the stored date and the last watermark is in both databases, so
      that the next session, which begins at that watermark, leaves nothing out. */
  lemma WatermarkLeavesNothing(now: int, hasPublisher: bool, visits: seq<Visit>)
    requires HonestRun(Opening(now, hasPublisher), visits)
    ensures var r := ReadAll(Meetings(Opening(now, hasPublisher), visits).session.trace);
      r.mark.Some? ==>
        forall p :: p in Recorded(visits) && r.beginning < p.time <= r.mark.value ==> p in r.rows && p in r.batched
  {
    hide Inv, HonestRun, Meetings, Opening, Recorded, ReadAll, UpToDate, InProgress;
    RunCatches(now, hasPublisher, visits);
  }

  lemma StoreOne(p: DataPoint, last: int, seen: int, clock: Clock)
    ensures Store([p], Database({}, true), last, seen, clock) ==
      StoreResult(true, if Relevant(p, last, clock) && p.time > seen then p.time else seen,
                  if Wanted(p, last, clock) then [p] else [])
  {
    assert [p][..0] == [] && [p][..1] == [p];
    assert Latest([p][..0], seen, last, clock) == seen && Kept([p][..0], last, clock) == [];
    assert Reached([p][..0], {}, last, clock) == 0;
  }

  /** Why the clock of the station must not be ahead: a record that is still to come when
      its page is handled is passed over, if the clock has caught up by the next page. */
  lemma ClockAheadLosesARecord(p: DataPoint, q: DataPoint, last: int, early: Clock, late: Clock)
    requires !p.dash && !p.blank && !q.dash && !q.blank && last < p.time < q.time
    requires early.relevance < Ticks(p.time) && IsPast(q, late)
    ensures var first := Store([p], Database({}, true), last, last, early);
      var second := Store([q], Database({}, true), last, first.mostRecent, late);
      && first.ok && second.ok && first.inserted == [] && second.inserted == [q]
      && second.mostRecent == q.time > p.time
  {
    StoreOne(p, last, last, early);
    StoreOne(q, last, last, late);
    hide Store;
  }

  // ---------------------------------------------------------------- there are such runs

  /** The run of one page, as a dialogue: the station has two records after the stored
      date, and sends them. */
  function OnePageVisits(n: nat, c: S.Scenario, p: DataPoint, q: DataPoint): (visits: seq<Visit>)
    ensures |visits| == n
  {
    if n == 0 then []
    else OnePageVisits(n - 1, c, p, q) + [Visit(S.EventAt(n - 1, c), [p, q], [[p, q]])]
  }

  lemma {:induction false} VisitsUpTo(n: nat, k: nat, c: S.Scenario, p: DataPoint, q: DataPoint)
    requires k <= n
    ensures OnePageVisits(n, c, p, q)[..k] == OnePageVisits(k, c, p, q)
    ensures k < n ==> OnePageVisits(n, c, p, q)[k] == Visit(S.EventAt(k, c), [p, q], [[p, q]])
  {
    if k == n {
    } else {
      VisitsUpTo(n - 1, k, c, p, q);
    }
  }

  lemma {:induction false} OnePageDialogue(now: int, n: nat, c: S.Scenario, p: DataPoint, q: DataPoint)
    requires n < 20 && S.Late(now / SECOND, c) && S.OnePage(now / SECOND, c, p, q)
    ensures var d := Meetings(Opening(now, true), OnePageVisits(n, c, p, q));
      && d.session == Run(Started(now, true), S.Events(n, c))
      && (n >= 17 ==> d.chunks == [[p, q]])
  {
    hide S.Late, S.OnePage, Started, Step;
    if n == 0 {
    } else {
      OnePageDialogue(now, n - 1, c, p, q);
      S.OnePageStages(now, n - 1, c, p, q);
      var visits, events := OnePageVisits(n, c, p, q), S.Events(n, c);
      assert visits[..n - 1] == OnePageVisits(n - 1, c, p, q) && events[..n - 1] == S.Events(n - 1, c);
      SizeIsValid(c);
    }
  }

  lemma SizeIsValid(c: S.Scenario)
    ensures S.Answer(c).size.valid && S.Answer(c).page == c.page && S.Answer(c).size.pages == c.pages
    ensures S.Answer(c).station == Known(5, c.last) && S.Answer(c).clock == Clock(c.later, c.later)
  {
  }

  lemma OnePageArchive(last: int, p: DataPoint, q: DataPoint)
    requires last < p.time < q.time && !p.dash && !p.blank && !q.dash && !q.blank
    ensures IsArchive([p, q]) && HoldsLater([p, q], last, [[p, q]])
  {
    assert p in [[p, q]][0] && q in [[p, q]][0];
  }

  lemma OnePageIsCarried(last: int, c: S.Scenario, p: DataPoint, q: DataPoint)
    requires p.time < q.time && Ticks(q.time) < c.later
    ensures Carries([p, q], [p, q], last, Clock(c.later, c.later))
  {
  }

  lemma OnePageIsHonest(now: int, n: nat, c: S.Scenario, p: DataPoint, q: DataPoint)
    requires n < 20 && S.Late(now / SECOND, c) && S.OnePage(now / SECOND, c, p, q)
    ensures Honest(Meetings(Opening(now, true), OnePageVisits(n, c, p, q)), Visit(S.EventAt(n, c), [p, q], [[p, q]]))
  {
    assert c.last > 0 && c.last < p.time < q.time && Ticks(q.time) < c.later && c.pages == 1;
    OnePageArchive(c.last, p, q);
    OnePageIsCarried(c.last, c, p, q);
    SizeIsValid(c);
    assert c.page.points == [p, q];
    hide S.Late, S.OnePage, Started, Run, S.Events, Meetings, Opening, Carries, HoldsLater, IsArchive, S.Answer;
    S.OnePageStages(now, n, c, p, q);
    OnePageDialogue(now, n, c, p, q);
  }

  /** An honest run that stores, completes and publishes: the one whose job does not cover
      the first record, which is in both databases all the same. */
  lemma OnePageRun(now: int, c: S.Scenario, p: DataPoint, q: DataPoint)
    requires S.Late(now / SECOND, c) && S.OnePage(now / SECOND, c, p, q)
    ensures HonestRun(Opening(now, true), OnePageVisits(20, c, p, q))
    ensures Meetings(Opening(now, true), OnePageVisits(19, c, p, q)).session == Run(Started(now, true), S.Events(19, c))
  {
    var visits := OnePageVisits(20, c, p, q);
    OnePageDialogue(now, 19, c, p, q);
    forall n | 0 <= n < 20
      ensures Honest(Meetings(Opening(now, true), visits[..n]), visits[n]) && Recorded(visits[..n]) <= visits[n].archive
    {
      VisitsUpTo(20, n, c, p, q);
      OnePageIsHonest(now, n, c, p, q);
    }
    hide Honest, Meetings, Opening, Run, Started, S.Events;
  }
}

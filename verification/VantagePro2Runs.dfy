/** What holds in every run of the archive-download protocol, whatever the station,
    the network, the database and the operator do. */
module VantagePro2Runs {
  import opened Common
  import Crc
  import AsyncJobPublishers
  import CrcProofs
  import opened Timestamps
  import opened VantagePro2ArchivePages
  import opened VantagePro2Protocol

  // -------------------------------------------------------------- replaying the log

  /** The current download: pages announced, accepted and rejected, answers sent. */
  datatype Download = NoDownload | Download(announced: nat, accepted: nat, rejected: nat, acks: nat, naks: nat)

  /** What a reader of the log knows: the last watermark if any, whether a download has
      completed, the beginning prepared, the maximum of that beginning and the relevant
      times of the pages accepted since, that maximum after the first page accepted, the
      latest row, the rows in each database, the current download, and whether every
      entry was justified. */
  datatype Reader = Reader(
    created: int, mark: Option<int>, completed: bool, beginning: int, seen: int,
    first: Option<int>, top: Option<int>, rows: set<DataPoint>, batched: set<DataPoint>,
    download: Download, sound: bool)

  /** What an archive request must ask for. */
  function Resume(r: Reader): int {
    if r.mark.Some? then r.mark.value else if r.completed then 0 else r.beginning
  }

  /** The span of a job: from the creation of the connector, or from the most recent date
      after the first page accepted if that is earlier, to the last watermark or the epoch.
      That date is the beginning prepared when the page holds no relevant record. */
  function JobBegin(r: Reader): int {
    if r.first.Some? && r.first.value < r.created then r.first.value else r.created
  }

  function JobEnd(r: Reader): int {
    if r.mark.Some? then r.mark.value else 0
  }

  predicate Below(top: Option<int>, m: int) {
    top.Some? ==> top.value <= m
  }

  /** Every page received so far has been answered, and so has the announcement. */
  predicate Answered(d: Download) {
    d.Download? && d.acks == d.accepted + 1 && d.naks == d.rejected
  }

  /** When an entry may follow what has been read. */
  predicate Justified(r: Reader, a: Action) {
    match a
    case Watermark(w) => w == r.seen && JobEnd(r) < w && r.beginning <= w
    case Accepted(page, clock) =>
      && Answered(r.download) && r.download.accepted < r.download.announced
      && Below(r.top, Latest(page, r.seen, r.beginning, clock))
      && forall p :: p in page && Wanted(p, r.beginning, clock) ==> p in r.rows && p in r.batched
    case Rejected => Answered(r.download) && r.download.accepted < r.download.announced
    case Completed => Answered(r.download) && r.download.accepted == r.download.announced
    case Inserted(p) => Answered(r.download) && r.beginning < p.time
    case JobPublished(oldest, newest) => oldest == JobBegin(r) && newest == JobEnd(r) && Below(r.top, newest)
    case Sent(ArchiveParams(since)) => since == Resume(r)
    case _ => true
  }

  function NextDownload(d: Download, a: Action): Download {
    if a.Announced? then Download(a.pages, 0, 0, 0, 0)
    else match d
      case NoDownload => NoDownload
      case Download(n, k, r, y, x) =>
        match a
        case Accepted(_, _) => Download(n, k + 1, r, y, x)
        case Rejected => Download(n, k, r + 1, y, x)
        case Sent(Ack) => Download(n, k, r, y + 1, x)
        case Sent(Nak) => Download(n, k, r, y, x + 1)
        case Completed => NoDownload
        case _ => d
  }

  function Read(r: Reader, a: Action): Reader {
    var u := r.(download := NextDownload(r.download, a), sound := r.sound && Justified(r, a));
    match a
    case Watermark(w) => u.(mark := Some(w))
    case Prepared(d) => u.(beginning := d, seen := d)
    case Accepted(page, clock) =>
      var m := Latest(page, r.seen, r.beginning, clock);
      u.(seen := m, first := if r.first.None? then Some(m) else r.first)
    case Inserted(p) => u.(rows := r.rows + {p}, top := if Below(r.top, p.time) then Some(p.time) else r.top)
    case Completed => u.(completed := true)
    case Batched(ps) => u.(batched := r.batched + set p | p in ps)
    case _ => u
  }

  function ReadAll(t: Trace): Reader {
    match t
    case Start(created) => Reader(created, None, false, 0, 0, None, None, {}, {}, NoDownload, true)
    case Then(b, a) => Read(ReadAll(b), a)
  }

  // -------------------------------------------------------------------- the invariant

  predicate Downloading(st: State) {
    st.SENDING_ACK_ARCHIVE_DOWNLOAD? || st.WAITING_ARCHIVE_PAGE? || st.SENDING_ARCHIVE_PAGE_ANSWER?
  }

  predicate Identified(st: State) {
    !(st.STARTING? || st.SENDING_WAKE_UP_STATION? || st.WAITING_ECHO_STATION? || st.SENDING_REQ_STATION?
      || st.WAITING_ACK_STATION? || st.WAITING_DATA_STATION? || st.STOPPED?)
  }

  /** The states that come after the page store has been prepared. */
  predicate Prepped(st: State) {
    Identified(st) && !(st.SENDING_REQ_MAIN_MODE? || st.WAITING_ACK_MAIN_MODE? || st.SENDING_REQ_TIMEZONE?
      || st.WAITING_ACK_TIMEZONE? || st.WAITING_DATA_TIMEZONE?)
  }

  /** How the session agrees with its own log while the socket is open. */
  predicate Agrees(s: Session, r: Reader) {
    && s.beginning == r.beginning
    && s.mostRecent == r.seen
    && s.beginning <= s.mostRecent
    && (Identified(s.state) ==> s.coordsValid)
    && (Downloading(s.state) ==>
        && Answered(r.download)
        && s.pagesLeft >= 0
        && s.pagesLeft + r.download.accepted == r.download.announced)
    && (s.state.WAITING_ARCHIVE_PAGE? ==> s.pagesLeft > 0)
    && s.oldest == JobBegin(r)
    && (r.top.Some? ==> r.first.Some?) && Below(r.top, s.mostRecent)
    && (r.first.Some? ==> r.first.value <= s.mostRecent <= s.newest)
    && (if Downloading(s.state) then s.lastArchive <= s.newest || s.lastArchive <= s.beginning
        else if Prepped(s.state) then s.lastArchive == Resume(r)
        else r.mark.None? && !r.completed && r.first.None?)
  }

  predicate Core(s: Session) {
    var r := ReadAll(s.trace);
    && r.sound
    && s.newest == JobEnd(r) && (r.mark.Some? ==> 0 < r.mark.value && s.lastArchive <= r.mark.value)
    && s.pagesLeft < 0x1_0000
    && !s.state.STARTING?
    && (s.state.STOPPED? ==> !s.open)
    && (!s.open ==> s.state.STOPPED? || s.state.SENDING_ARCHIVE_PAGE_ANSWER?)
    && (s.open ==> Agrees(s, r))
  }

  predicate WithinBudget(s: Session) {
    && (!s.state.STOPPED? ==> s.timeouts <= 4 && s.errors <= 100)
    && (s.state.WAITING_NEXT_MEASURE_TICK? ==> s.timeouts == 0 && s.errors == 0)
  }

  predicate PendingFits(s: Session) {
    && (s.pending.Tick? <==> s.state.WAITING_NEXT_MEASURE_TICK?)
    && (s.pending.Flush? ==> s.open && IsRestart(s.pending.restart) && RestartOf(s.state) == s.pending.restart)
  }

  predicate Inv(s: Session) {
    Core(s) && WithinBudget(s) && PendingFits(s)
  }

  lemma {:induction false} ReadInserted(t: Trace, points: seq<DataPoint>, m: int)
    requires ReadAll(t).sound && Answered(ReadAll(t).download) && Below(ReadAll(t).top, m)
    requires forall p :: p in points ==> ReadAll(t).beginning < p.time <= m
    ensures var r, u := ReadAll(t), ReadAll(LogInserted(t, points));
      u == r.(rows := u.rows, top := u.top) && Below(u.top, m) && forall p :: p in points ==> p in u.rows
  {
    if points == [] {
    } else {
      ReadInserted(t, points[..|points| - 1], m);
    }
  }

  lemma ReadThen(t: Trace, a: Action)
    ensures ReadAll(Then(t, a)) == Read(ReadAll(t), a)
  {
  }

  // --------------------------------------------------------- what every event keeps

  /** What is inserted is wanted, so it is after the beginning and among the latest seen. */
  lemma StoredAreSeen(points: seq<DataPoint>, db: Database, beginning: int, mostRecent: int, clock: Clock)
    ensures var r := Store(points, db, beginning, mostRecent, clock);
      r.mostRecent >= mostRecent && forall p :: p in r.inserted ==> beginning < p.time <= r.mostRecent
  {
    var n := Reached(points, db.refused, beginning, clock);
    LatestIsRelevant(points[..n], mostRecent, beginning, clock);
    KeptIsWanted(points[..n], beginning, clock);
    if n > 0 {
      KeptIsWanted(points[..n - 1], beginning, clock);
      assert forall p :: p in points[..n - 1] ==> p in points[..n];
    }
  }

  function LogAccepted(t: Trace, inserted: seq<DataPoint>, page: seq<DataPoint>, clock: Clock,
                       marked: bool, m: int): Trace {
    var u := Then(Then(t, Batched(inserted)), Accepted(page, clock));
    Then(if marked then Then(u, Watermark(m)) else u, Sent(Ack))
  }

  lemma ReadAccepted(t: Trace, inserted: seq<DataPoint>, page: seq<DataPoint>, clock: Clock, marked: bool, m: int)
    requires var r := ReadAll(t);
      && r.sound && Answered(r.download) && r.download.accepted < r.download.announced
      && r.beginning <= r.seen && m == Latest(page, r.seen, r.beginning, clock) && Below(r.top, m)
      && (marked ==> JobEnd(r) < m)
      && (forall p :: p in page && Wanted(p, r.beginning, clock) ==> p in r.rows && p in inserted)
    ensures var r, u := ReadAll(t), ReadAll(LogAccepted(t, inserted, page, clock, marked, m));
      && u.sound && u.mark == (if marked then Some(m) else r.mark) && u.completed == r.completed
      && u.created == r.created && u.beginning == r.beginning && u.seen == m
      && u.first == (if r.first.None? then Some(m) else r.first) && u.top == r.top
      && u.download == Download(r.download.announced, r.download.accepted + 1, r.download.rejected,
                                r.download.acks + 1, r.download.naks)
  {
    hide Wanted, Latest, ReadAll;
    var t2 := Then(t, Batched(inserted));
    var t3 := Then(t2, Accepted(page, clock));
    ReadThen(t, Batched(inserted));
    ReadThen(t2, Accepted(page, clock));
    ReadThen(t3, Watermark(m));
    ReadThen(if marked then Then(t3, Watermark(m)) else t3, Sent(Ack));
  }

  lemma {:induction false} InsertedRows(t: Trace, points: seq<DataPoint>)
    ensures var r, u := ReadAll(t), ReadAll(LogInserted(t, points));
      && u.rows == r.rows + (set p | p in points) && u.batched == r.batched
      && u.mark == r.mark && u.beginning == r.beginning
  {
    if points == [] {
    } else {
      var n := |points| - 1;
      InsertedRows(t, points[..n]);
      assert points == points[..n] + [points[n]];
    }
  }

  lemma AcceptedRows(t: Trace, inserted: seq<DataPoint>, page: seq<DataPoint>, clock: Clock, marked: bool, m: int)
    ensures var r, u := ReadAll(t), ReadAll(LogAccepted(t, inserted, page, clock, marked, m));
      && u.rows == r.rows && u.batched == r.batched + (set p | p in inserted)
      && u.mark == (if marked then Some(m) else r.mark) && u.beginning == r.beginning
  {
    hide ReadAll, Latest, Justified, NextDownload;
    var t1 := Then(t, Batched(inserted));
    var t2 := Then(t1, Accepted(page, clock));
    ReadThen(t, Batched(inserted));
    ReadThen(t1, Accepted(page, clock));
    ReadThen(t2, Watermark(m));
    ReadThen(if marked then Then(t2, Watermark(m)) else t2, Sent(Ack));
  }

  lemma PageStoredIs(s: Session, page: seq<DataPoint>, clock: Clock)
    ensures var t, marked := Then(s.trace, Accepted(page, clock)), s.mostRecent > s.newest;
      PageStored(s, page, clock) == s.(
        trace := if marked then Then(t, Watermark(s.mostRecent)) else t,
        newest := if marked then s.mostRecent else s.newest,
        oldest := if s.mostRecent < s.oldest then s.mostRecent else s.oldest)
  {
    var t := Log(s, Accepted(page, clock));
    assert t == s.(trace := Then(s.trace, Accepted(page, clock)));
    var u := if t.mostRecent > t.newest then Log(t.(newest := t.mostRecent), Watermark(t.mostRecent)) else t;
    assert u == t.(trace := u.trace, newest := u.newest);
  }

  lemma LogStoreIs(s: Session, points: seq<DataPoint>)
    ensures LogStore(s, points, true) == s.(trace := Then(LogInserted(s.trace, points), Batched(points)))
  {
    hide LogInserted;
  }

  lemma AnswerIs(s: Session)
    requires s.open
    ensures Send(Goto(s.(pagesLeft := s.pagesLeft - 1), SENDING_ARCHIVE_PAGE_ANSWER), Ack)
         == s.(state := SENDING_ARCHIVE_PAGE_ANSWER, pending := Operation, pagesLeft := s.pagesLeft - 1,
               trace := Then(s.trace, Sent(Ack)))
  {
  }

  lemma TraceOfAccepted(s: Session, input: Input)
    requires s.open
    requires Store(input.page.points, input.db, s.beginning, s.mostRecent, input.clock).ok
    ensures var r := Store(input.page.points, input.db, s.beginning, s.mostRecent, input.clock);
      var marked := r.mostRecent > s.newest;
      ValidPage(s, input) == s.(
        state := SENDING_ARCHIVE_PAGE_ANSWER, pending := Operation, pagesLeft := s.pagesLeft - 1,
        mostRecent := r.mostRecent, newest := if marked then r.mostRecent else s.newest,
        oldest := if r.mostRecent < s.oldest then r.mostRecent else s.oldest,
        trace := LogAccepted(LogInserted(s.trace, r.inserted), r.inserted, input.page.points, input.clock,
                             marked, r.mostRecent))
  {
    hide Store, LogInserted, LogStore, PageStored, Send, Goto;
    var r := Store(input.page.points, input.db, s.beginning, s.mostRecent, input.clock);
    var t := s.(mostRecent := r.mostRecent);
    LogStoreIs(t, r.inserted);
    PageStoredIs(LogStore(t, r.inserted, true), input.page.points, input.clock);
    AnswerIs(PageStored(LogStore(t, r.inserted, true), input.page.points, input.clock));
  }

  /** An accepted page: what is stored, then logged, then turned into a watermark. */
  lemma AcceptedPageKeeps(s: Session, input: Input)
    requires Core(s) && WithinBudget(s) && s.open && s.state.WAITING_ARCHIVE_PAGE?
    requires Store(input.page.points, input.db, s.beginning, s.mostRecent, input.clock).ok
    ensures Inv(ValidPage(s, input))
  {
    hide Store, Wanted, Latest, LogInserted, ReadAll, LogAccepted, ValidPage;
    var points := input.page.points;
    var r := Store(points, input.db, s.beginning, s.mostRecent, input.clock);
    var t := LogInserted(s.trace, r.inserted);
    StoredAreSeen(points, input.db, s.beginning, s.mostRecent, input.clock);
    AcceptedIsWanted(points, input.db, s.beginning, s.mostRecent, input.clock);
    ReadInserted(s.trace, r.inserted, r.mostRecent);
    ReadAccepted(t, r.inserted, points, input.clock, r.mostRecent > s.newest, r.mostRecent);
    TraceOfAccepted(s, input);
  }

  lemma RefusedPageKeeps(s: Session, input: Input)
    requires Core(s) && WithinBudget(s) && s.open && s.state.WAITING_ARCHIVE_PAGE?
    requires !Store(input.page.points, input.db, s.beginning, s.mostRecent, input.clock).ok
    ensures Inv(ValidPage(s, input))
  {
    hide Store, Wanted, Latest, LogInserted, ReadAll;
    var points := input.page.points;
    var r := Store(points, input.db, s.beginning, s.mostRecent, input.clock);
    StoredAreSeen(points, input.db, s.beginning, s.mostRecent, input.clock);
    ReadInserted(s.trace, r.inserted, r.mostRecent);
    ReadThen(LogInserted(s.trace, r.inserted), Closed);
  }

  lemma RejectedPageKeeps(s: Session)
    requires Core(s) && WithinBudget(s) && s.open && s.state.WAITING_ARCHIVE_PAGE?
    ensures Inv(InvalidPage(s))
  {
    hide ReadAll;
    ReadThen(s.trace, Rejected);
    ReadThen(Then(s.trace, Rejected), Closed);
    ReadThen(Then(s.trace, Rejected), Sent(Nak));
  }

  lemma SizeKeeps(s: Session, input: Input)
    requires Core(s) && WithinBudget(s) && s.open && s.state.WAITING_ARCHIVE_NB_PAGES?
    ensures Inv(SizeReceived(s, input))
  {
    hide ReadAll;
    if input.size.valid {
      AnnouncedKeeps(s, input);
    } else {
      var t := s.(pagesLeft := input.size.pages);
      assert Core(t) && WithinBudget(t);
      hide Core, WithinBudget;
      MoveKeeps(t, SENDING_ABORT_ARCHIVE_DOWNLOAD, Abort);
    }
  }

  lemma AnnouncedKeeps(s: Session, input: Input)
    requires Core(s) && WithinBudget(s) && s.open && s.state.WAITING_ARCHIVE_NB_PAGES? && input.size.valid
    ensures Inv(SizeReceived(s, input))
  {
    hide ReadAll;
    ReadThen(s.trace, Announced(input.size.pages));
    ReadThen(Then(s.trace, Announced(input.size.pages)), Sent(Ack));
  }

  /** A download that is over, before the state has been left. */
  predicate Ended(s: Session) {
    var r := ReadAll(s.trace);
    && s.open && r.sound && r.completed && s.coordsValid && s.pagesLeft < 0x1_0000
    && s.lastArchive == s.newest == JobEnd(r) && (r.mark.Some? ==> 0 < r.mark.value)
    && s.beginning == r.beginning <= s.mostRecent == r.seen
    && s.oldest == JobBegin(r)
    && (r.top.Some? ==> r.first.Some?) && Below(r.top, s.mostRecent)
    && (r.first.Some? ==> r.first.value <= s.mostRecent <= s.newest)
  }

  lemma CompletedEnds(s: Session)
    requires Core(s) && s.open && Downloading(s.state) && s.pagesLeft == 0
    ensures Ended(s.(lastArchive := s.newest, trace := Then(s.trace, Completed)))
  {
    hide ReadAll;
    ReadThen(s.trace, Completed);
  }

  lemma JobEnds(s: Session)
    requires Ended(s)
    ensures Ended(s.(trace := Then(s.trace, JobPublished(s.oldest, s.newest))))
  {
    hide ReadAll;
    ReadThen(s.trace, JobPublished(s.oldest, s.newest));
  }

  lemma EndedKeeps(s: Session)
    requires Ended(s) && s.timeouts <= 4 && s.errors <= 100
    ensures Inv(Restart(s, SENDING_WAKE_UP_SETTIME))
    ensures Inv(WaitForNextMeasure(s))
  {
    hide ReadAll;
    ReadSent(s.trace, Echo);
  }

  lemma DownloadOverKeeps(s: Session, now: int)
    requires Core(s) && WithinBudget(s) && s.open && Downloading(s.state) && s.pagesLeft == 0
    ensures Inv(DownloadOver(s, now))
  {
    hide Core, Inv, Ended, Restart, WaitForNextMeasure, Log;
    var t := s.(lastArchive := s.newest, trace := Then(s.trace, Completed));
    var u := t.(trace := Then(t.trace, JobPublished(t.oldest, t.newest)));
    LogFrame(s.(lastArchive := s.newest), Completed);
    LogFrame(t, JobPublished(t.oldest, t.newest));
    CompletedEnds(s);
    JobEnds(t);
    EndedKeeps(t);
    EndedKeeps(u);
  }

  lemma TimezoneKeeps(s: Session, input: Input)
    requires Core(s) && WithinBudget(s) && s.open && s.state.WAITING_DATA_TIMEZONE?
    ensures Inv(TimezoneReceived(s, input))
  {
    hide ReadAll;
    ReadThen(s.trace, Prepared(s.lastArchive));
    ReadThen(Then(s.trace, Prepared(s.lastArchive)), Sent(Echo));
  }

  lemma StationKeeps(s: Session, input: Input)
    requires Core(s) && WithinBudget(s) && s.open && s.state.WAITING_DATA_STATION?
    ensures Inv(StationIdentified(s, input))
  {
    var t := s.(coordsValid := input.coordsValid);
    if !input.coordsValid {
      assert Core(t) by { hide ReadAll; }
      hide Core, RetryAfterError;
      ErrorKeeps(t, SENDING_REQ_STATION);
    } else if input.station.Unknown? {
      assert Core(t) by { hide ReadAll; }
      hide Core, Close;
      CloseKeeps(t);
    } else {
      StationKnownKeeps(s, input);
    }
  }

  lemma StationKnownKeeps(s: Session, input: Input)
    requires Core(s) && WithinBudget(s) && s.open && s.state.WAITING_DATA_STATION?
    requires input.coordsValid && input.station.Known?
    ensures Inv(StationIdentified(s, input))
  {
    hide ReadAll;
    ReadSent(s.trace, MainMode);
  }

  lemma ReadSent(t: Trace, m: Message)
    requires !m.Ack? && !m.Nak?
    requires m.ArchiveParams? ==> m.since == Resume(ReadAll(t))
    ensures ReadAll(Then(t, Sent(m))) == ReadAll(t)
    ensures ReadAll(Then(t, Closed)) == ReadAll(t)
  {
  }

  lemma CloseKeeps(s: Session)
    requires Core(s)
    ensures Inv(Close(s))
  {
    hide ReadAll, Agrees;
    ReadSent(s.trace, Echo);
  }

  /** Between two states of the same part of a cycle, outside the pages. */
  predicate Beside(st: State, next: State) {
    && !Downloading(st) && !Downloading(next)
    && !next.STARTING? && !next.STOPPED? && !next.WAITING_NEXT_MEASURE_TICK?
    && (Identified(next) ==> Identified(st)) && (Prepped(next) <==> Prepped(st))
  }

  /** Anything but an answer to a page; archive parameters ask for the last archive. */
  predicate Plain(s: Session, m: Message) {
    !m.Ack? && !m.Nak? && (m.ArchiveParams? ==> m.since == s.lastArchive && Prepped(s.state))
  }

  lemma BesideCore(s: Session, next: State)
    requires Core(s) && s.open && Beside(s.state, next)
    ensures Core(s.(state := next))
  {
    hide ReadAll, Identified, Prepped;
  }

  lemma SameReaderCore(s: Session, t: Trace)
    requires Core(s) && ReadAll(t) == ReadAll(s.trace)
    ensures Core(s.(trace := t))
  {
    hide ReadAll;
  }

  lemma PlainIsJustified(s: Session, m: Message)
    requires Core(s) && s.open && !Downloading(s.state) && Plain(s, m)
    ensures ReadAll(Then(s.trace, Sent(m))) == ReadAll(s.trace)
  {
    hide ReadAll, Identified, Prepped, Downloading;
    ReadSent(s.trace, m);
  }

  /** Sending such a message, and waiting, read no further into the archive. */
  lemma MoveKeeps(s: Session, next: State, m: Message)
    requires Core(s) && WithinBudget(s) && s.open && Beside(s.state, next) && Plain(s, m)
    ensures Inv(Await(Goto(s, next)))
    ensures Inv(Send(Goto(s, next), m))
  {
    assert !s.state.STOPPED? by { hide ReadAll; }
    assert !Downloading(s.state) && !next.WAITING_NEXT_MEASURE_TICK? && !next.STOPPED?;
    hide Core, Beside, Plain, ReadAll, Downloading;
    var t := s.(state := next);
    BesideCore(s, next);
    PlainIsJustified(s, m);
    SameReaderCore(t, Then(s.trace, Sent(m)));
    CountedCore(t, Await(t));
    CountedCore(t.(trace := Then(s.trace, Sent(m))), Send(t, m));
  }

  lemma BesideOpening()
    ensures Beside(SENDING_WAKE_UP_STATION, WAITING_ECHO_STATION) && Beside(WAITING_ECHO_STATION, SENDING_REQ_STATION)
    ensures Beside(SENDING_REQ_STATION, WAITING_ACK_STATION) && Beside(WAITING_ACK_STATION, WAITING_DATA_STATION)
    ensures Beside(SENDING_REQ_MAIN_MODE, WAITING_ACK_MAIN_MODE) && Beside(WAITING_ACK_MAIN_MODE, SENDING_REQ_TIMEZONE)
    ensures Beside(SENDING_REQ_TIMEZONE, WAITING_ACK_TIMEZONE) && Beside(WAITING_ACK_TIMEZONE, WAITING_DATA_TIMEZONE)
  {
  }

  lemma BesideRequest()
    ensures Beside(SENDING_WAKE_UP_ARCHIVE, WAITING_ECHO_ARCHIVE) && Beside(WAITING_ECHO_ARCHIVE, SENDING_REQ_ARCHIVE)
    ensures Beside(SENDING_REQ_ARCHIVE, WAITING_ACK_ARCHIVE) && Beside(WAITING_ACK_ARCHIVE, SENDING_ARCHIVE_PARAMS)
    ensures Prepped(WAITING_ACK_ARCHIVE)
  {
  }

  lemma BesideParameters()
    ensures Beside(SENDING_ARCHIVE_PARAMS, WAITING_ACK_ARCHIVE_PARAMS)
    ensures Beside(WAITING_ACK_ARCHIVE_PARAMS, WAITING_ARCHIVE_NB_PAGES)
    ensures Beside(WAITING_ARCHIVE_NB_PAGES, SENDING_ABORT_ARCHIVE_DOWNLOAD)
  {
  }

  lemma BesideSetTime()
    ensures Beside(SENDING_WAKE_UP_SETTIME, WAITING_ECHO_SETTIME) && Beside(WAITING_ECHO_SETTIME, SENDING_SETTIME)
    ensures Beside(SENDING_SETTIME, WAITING_ACK_SETTIME) && Beside(WAITING_ACK_SETTIME, SENDING_SETTIME_PARAMS)
    ensures Beside(SENDING_SETTIME_PARAMS, WAITING_ACK_TIME_SET)
  {
  }

  lemma RestartOfAcks()
    ensures RestartOf(WAITING_ACK_STATION) == SENDING_REQ_STATION
    ensures RestartOf(WAITING_ACK_TIMEZONE) == SENDING_REQ_TIMEZONE
    ensures RestartOf(WAITING_ACK_ARCHIVE) == SENDING_REQ_ARCHIVE
    ensures RestartOf(WAITING_ACK_SETTIME) == SENDING_SETTIME
  {
  }

  lemma RestartFacts(st: State, restart: State)
    requires IsRestart(restart) && RestartOf(st) == restart
    ensures RestartOf(restart) == restart
    ensures !restart.STOPPED? && !restart.STARTING? && !Downloading(restart) && !restart.WAITING_ARCHIVE_PAGE?
    ensures !restart.WAITING_NEXT_MEASURE_TICK? && !st.WAITING_NEXT_MEASURE_TICK? && !st.STOPPED?
    ensures Identified(restart) ==> Identified(st)
    ensures Prepped(restart) <==> Prepped(st)
    ensures !Downloading(st)
  {
  }

  /** What is pending, counted or flagged plays no part in the agreement with the log. */
  lemma CountedCore(s: Session, t: Session)
    requires Core(s)
    requires t == s.(pending := t.pending, timeouts := t.timeouts, errors := t.errors, ack := t.ack,
                     setTimeRequested := t.setTimeRequested, setTimeArmed := t.setTimeArmed)
    ensures Core(t)
  {
    hide ReadAll;
  }

  lemma RestartedCore(s: Session, restart: State)
    requires Core(s) && s.open && IsRestart(restart) && RestartOf(s.state) == restart
    ensures Core(s.(state := restart))
  {
    hide ReadAll, IsRestart, RestartOf, Identified, Prepped, Downloading;
    RestartFacts(s.state, restart);
  }

  lemma TimeoutKeeps(s: Session, restart: State)
    requires Core(s) && s.open && s.timeouts <= 5 && s.errors <= 100
    requires IsRestart(restart) && RestartOf(s.state) == restart
    ensures Inv(RetryAfterTimeout(s, restart))
  {
    hide Core, Close, IsRestart, RestartOf, Identified, Prepped, Downloading;
    var t := s.(timeouts := s.timeouts + 1);
    RestartFacts(s.state, restart);
    CountedCore(s, t);
    CloseKeeps(t);
    RestartedCore(s, restart);
    CountedCore(s.(state := restart), t.(state := restart, pending := Flush(restart)));
  }

  lemma ErrorKeeps(s: Session, restart: State)
    requires Core(s) && s.open && s.timeouts <= 4 && s.errors <= 100
    requires IsRestart(restart) && RestartOf(s.state) == restart
    ensures Inv(RetryAfterError(s, restart))
  {
    hide Core, Close, IsRestart, RestartOf, Identified, Prepped, Downloading;
    var t := s.(errors := s.errors + 1);
    RestartFacts(s.state, restart);
    CountedCore(s, t);
    CloseKeeps(t);
    CountedCore(s, t.(pending := Flush(restart)));
  }

  lemma WaitKeeps(s: Session)
    requires Core(s) && s.open && s.coordsValid && Prepped(s.state) && !Downloading(s.state)
    ensures Inv(WaitForNextMeasure(s))
    ensures Inv(TimeSet(s))
  {
    hide ReadAll;
  }

  // -------------------------------------------------------------------- every event

  lemma NextPageKeeps(s: Session)
    requires Core(s) && WithinBudget(s) && s.open && Downloading(s.state) && s.pagesLeft != 0
    ensures Inv(Await(Goto(s, WAITING_ARCHIVE_PAGE)))
  {
    hide ReadAll;
  }

  lemma IdentificationKeeps(s: Session, input: Input)
    requires Core(s) && WithinBudget(s) && s.open && s.pending == Nothing
    requires s.state.SENDING_WAKE_UP_STATION? || s.state.WAITING_ECHO_STATION?
          || s.state.SENDING_REQ_STATION? || s.state.WAITING_ACK_STATION? || s.state.WAITING_DATA_STATION?
    ensures Inv(OnSuccess(s, input))
  {
    hide Core, WithinBudget, Inv, OnSuccess, Send, Await, Goto, RetryAfterError, StationIdentified, RestartOf, Beside;
    OnIdentification(s, input);
    BesideOpening();
    if s.state.SENDING_WAKE_UP_STATION? {
      MoveKeeps(s, WAITING_ECHO_STATION, Echo);
    } else if s.state.WAITING_ECHO_STATION? {
      MoveKeeps(s, SENDING_REQ_STATION, GetStation);
    } else if s.state.SENDING_REQ_STATION? {
      MoveKeeps(s, WAITING_ACK_STATION, Echo);
    } else if s.state.WAITING_ACK_STATION? {
      RestartOfAcks();
      RetryOrMove(s, SENDING_REQ_STATION, WAITING_DATA_STATION, Echo);
    } else {
      StationKeeps(s, input);
    }
  }

  lemma ConfigurationKeeps(s: Session, input: Input)
    requires Core(s) && WithinBudget(s) && s.open && s.pending == Nothing
    requires s.state.SENDING_REQ_MAIN_MODE? || s.state.WAITING_ACK_MAIN_MODE? || s.state.SENDING_REQ_TIMEZONE?
          || s.state.WAITING_ACK_TIMEZONE? || s.state.WAITING_DATA_TIMEZONE?
    ensures Inv(OnSuccess(s, input))
  {
    hide Core, WithinBudget, Inv, OnSuccess, Send, Await, Goto, RetryAfterError, TimezoneReceived, RestartOf, Beside;
    OnConfiguration(s, input);
    BesideOpening();
    if s.state.SENDING_REQ_MAIN_MODE? {
      MoveKeeps(s, WAITING_ACK_MAIN_MODE, Echo);
    } else if s.state.WAITING_ACK_MAIN_MODE? {
      MoveKeeps(s, SENDING_REQ_TIMEZONE, GetTimezone);
    } else if s.state.SENDING_REQ_TIMEZONE? {
      MoveKeeps(s, WAITING_ACK_TIMEZONE, Echo);
    } else if s.state.WAITING_ACK_TIMEZONE? {
      RestartOfAcks();
      RetryOrMove(s, SENDING_REQ_TIMEZONE, WAITING_DATA_TIMEZONE, Echo);
    } else {
      TimezoneKeeps(s, input);
    }
  }

  /** A state that reads an acknowledgement either asks again or moves on. */
  lemma RetryOrMove(s: Session, restart: State, next: State, m: Message)
    requires Core(s) && WithinBudget(s) && s.open && !s.state.STOPPED?
    requires IsRestart(restart) && RestartOf(s.state) == restart
    requires Beside(s.state, next) && Plain(s, m)
    ensures Inv(RetryAfterError(s, restart))
    ensures Inv(Await(Goto(s, next)))
    ensures Inv(Send(Goto(s, next), m))
  {
    hide Core, Inv, Close, Send, Await, Goto, RetryAfterError, Beside, Plain, RestartOf, IsRestart;
    ErrorKeeps(s, restart);
    MoveKeeps(s, next, m);
  }

  lemma RequestKeeps(s: Session, input: Input)
    requires Core(s) && WithinBudget(s) && s.open && s.pending == Nothing
    requires s.state.SENDING_WAKE_UP_ARCHIVE? || s.state.WAITING_ECHO_ARCHIVE? || s.state.SENDING_REQ_ARCHIVE?
          || s.state.WAITING_ACK_ARCHIVE?
    ensures Inv(OnSuccess(s, input))
  {
    hide Core, WithinBudget, Inv, OnSuccess, Send, Await, Goto, RetryAfterError, RestartOf, Beside, Prepped;
    OnRequest(s, input);
    BesideRequest();
    if s.state.SENDING_WAKE_UP_ARCHIVE? {
      MoveKeeps(s, WAITING_ECHO_ARCHIVE, Echo);
    } else if s.state.WAITING_ECHO_ARCHIVE? {
      MoveKeeps(s, SENDING_REQ_ARCHIVE, GetArchive);
    } else if s.state.SENDING_REQ_ARCHIVE? {
      MoveKeeps(s, WAITING_ACK_ARCHIVE, Echo);
    } else {
      RestartOfAcks();
      RetryOrMove(s, SENDING_REQ_ARCHIVE, SENDING_ARCHIVE_PARAMS, ArchiveParams(s.lastArchive));
    }
  }

  lemma SetTimeKeeps(s: Session, input: Input)
    requires Core(s) && WithinBudget(s) && s.open && s.pending == Nothing
    requires s.state.SENDING_WAKE_UP_SETTIME? || s.state.WAITING_ECHO_SETTIME?
          || s.state.SENDING_SETTIME? || s.state.WAITING_ACK_SETTIME?
    ensures Inv(OnSuccess(s, input))
  {
    hide Core, WithinBudget, Inv, OnSuccess, Send, Await, Goto, RetryAfterError, RestartOf, Beside;
    OnSetTime(s, input);
    BesideSetTime();
    if s.state.SENDING_WAKE_UP_SETTIME? {
      MoveKeeps(s, WAITING_ECHO_SETTIME, Echo);
    } else if s.state.WAITING_ECHO_SETTIME? {
      MoveKeeps(s, SENDING_SETTIME, SetTime);
    } else if s.state.SENDING_SETTIME? {
      MoveKeeps(s, WAITING_ACK_SETTIME, Echo);
    } else {
      RestartOfAcks();
      RetryOrMove(s, SENDING_SETTIME, SENDING_SETTIME_PARAMS, SetTimeParams);
    }
  }

  lemma PageKeeps(s: Session, input: Input)
    requires Core(s) && WithinBudget(s) && s.open && s.state.WAITING_ARCHIVE_PAGE?
    ensures Inv(if input.page.valid then ValidPage(s, input) else InvalidPage(s))
  {
    hide Core, Inv, Store, ValidPage, InvalidPage;
    if !input.page.valid {
      RejectedPageKeeps(s);
    } else if Store(input.page.points, input.db, s.beginning, s.mostRecent, input.clock).ok {
      AcceptedPageKeeps(s, input);
    } else {
      RefusedPageKeeps(s, input);
    }
  }

  lemma DownloadKeeps(s: Session, input: Input)
    requires Core(s) && WithinBudget(s) && s.open && s.pending == Nothing
    requires s.state.SENDING_ARCHIVE_PARAMS? || s.state.WAITING_ACK_ARCHIVE_PARAMS?
          || s.state.WAITING_ARCHIVE_NB_PAGES? || Downloading(s.state)
    ensures Inv(OnSuccess(s, input))
  {
    hide Core, WithinBudget, Inv, OnSuccess, Close, Send, Await, Goto, SizeReceived, ValidPage, InvalidPage,
      DownloadOver, Beside;
    OnDownload(s, input);
    BesideParameters();
    if s.state.SENDING_ARCHIVE_PARAMS? {
      MoveKeeps(s, WAITING_ACK_ARCHIVE_PARAMS, Echo);
    } else if s.state.WAITING_ACK_ARCHIVE_PARAMS? {
      CloseKeeps(s);
      MoveKeeps(s, WAITING_ARCHIVE_NB_PAGES, Echo);
    } else if s.state.WAITING_ARCHIVE_NB_PAGES? {
      SizeKeeps(s, input);
    } else if s.state.WAITING_ARCHIVE_PAGE? {
      PageKeeps(s, input);
    } else if s.pagesLeft != 0 {
      NextPageKeeps(s);
    } else {
      DownloadOverKeeps(s, input.now);
    }
  }

  lemma EndsArePrepped()
    ensures Prepped(SENDING_SETTIME_PARAMS) && !Downloading(SENDING_SETTIME_PARAMS)
    ensures Prepped(SENDING_ABORT_ARCHIVE_DOWNLOAD) && !Downloading(SENDING_ABORT_ARCHIVE_DOWNLOAD)
    ensures Prepped(WAITING_NEXT_MEASURE_TICK) && !Downloading(WAITING_NEXT_MEASURE_TICK)
    ensures Prepped(WAITING_ACK_TIME_SET) && !Downloading(WAITING_ACK_TIME_SET)
  {
  }

  lemma PreppedIsValid(s: Session)
    requires Core(s) && s.open && Prepped(s.state)
    ensures s.coordsValid
  {
    hide ReadAll, Identified, Downloading;
  }

  lemma EndKeeps(s: Session, input: Input)
    requires Core(s) && WithinBudget(s) && s.open && s.pending == Nothing
    requires s.state.SENDING_SETTIME_PARAMS? || s.state.SENDING_ABORT_ARCHIVE_DOWNLOAD?
          || s.state.WAITING_NEXT_MEASURE_TICK? || s.state.WAITING_ACK_TIME_SET?
    ensures Inv(OnSuccess(s, input))
  {
    hide Core, WithinBudget, Inv, OnSuccess, Await, Goto, WaitForNextMeasure, TimeSet, Beside, Prepped, Downloading;
    OnEnd(s, input);
    EndsArePrepped();
    PreppedIsValid(s);
    BesideSetTime();
    if s.state.SENDING_SETTIME_PARAMS? {
      MoveKeeps(s, WAITING_ACK_TIME_SET, Echo);
    } else {
      WaitKeeps(s);
    }
  }

  lemma SuccessKeeps(s: Session, input: Input)
    requires Core(s) && WithinBudget(s) && s.open && s.pending == Nothing
    ensures Inv(OnSuccess(s, input))
  {
    assert !s.state.STARTING? && !s.state.STOPPED?;
    hide Core, WithinBudget, Inv, OnSuccess;
    match s.state
    case SENDING_ARCHIVE_PARAMS | WAITING_ACK_ARCHIVE_PARAMS | WAITING_ARCHIVE_NB_PAGES
       | WAITING_ARCHIVE_PAGE | SENDING_ACK_ARCHIVE_DOWNLOAD | SENDING_ARCHIVE_PAGE_ANSWER =>
      DownloadKeeps(s, input);
    case SENDING_SETTIME_PARAMS | SENDING_ABORT_ARCHIVE_DOWNLOAD | WAITING_NEXT_MEASURE_TICK | WAITING_ACK_TIME_SET =>
      EndKeeps(s, input);
    case SENDING_WAKE_UP_ARCHIVE | WAITING_ECHO_ARCHIVE | SENDING_REQ_ARCHIVE | WAITING_ACK_ARCHIVE =>
      RequestKeeps(s, input);
    case SENDING_WAKE_UP_SETTIME | WAITING_ECHO_SETTIME | SENDING_SETTIME | WAITING_ACK_SETTIME =>
      SetTimeKeeps(s, input);
    case SENDING_REQ_MAIN_MODE | WAITING_ACK_MAIN_MODE | SENDING_REQ_TIMEZONE | WAITING_ACK_TIMEZONE
       | WAITING_DATA_TIMEZONE =>
      ConfigurationKeeps(s, input);
    case _ => IdentificationKeeps(s, input);
  }

  lemma MainModeFaultKeeps(s: Session, outcome: Outcome)
    requires Core(s) && s.open && outcome != Success
    ensures Inv(Close(HandleGenericErrors(s, outcome, SENDING_REQ_MAIN_MODE)))
  {
    if outcome == TimedOut {
      MainModeTimeout(s);
    } else {
      CloseKeeps(s);
      hide Core, WithinBudget, PendingFits;
    }
  }

  lemma MainModeTimeout(s: Session)
    requires Core(s) && s.open
    ensures Inv(Close(RetryAfterTimeout(s, SENDING_REQ_MAIN_MODE)))
  {
    CloseKeeps(s.(timeouts := s.timeouts + 1));
    hide Core, WithinBudget, PendingFits;
  }

  lemma FaultKeeps(s: Session, outcome: Outcome)
    requires Core(s) && s.pending == Nothing && outcome != Success
    requires !s.state.STOPPED? ==> s.timeouts <= 5 && s.errors <= 100
    requires s.state.WAITING_NEXT_MEASURE_TICK? ==> s.timeouts <= 4
    ensures Inv(OnFault(s, outcome))
  {
    assert (s.state.STOPPED? ==> !s.open) && !s.state.STARTING?;
    assert !s.open ==> s.state.STOPPED? || s.state.SENDING_ARCHIVE_PAGE_ANSWER?;
    hide Core, Inv, OnFault, RestartOf, RetryAfterTimeout, Close;
    if s.state.STOPPED? || s.state.WAITING_ACK_MAIN_MODE? || s.state.WAITING_ACK_TIME_SET?
      || s.state.WAITING_NEXT_MEASURE_TICK? {
      IdleFaultKeeps(s, outcome);
    } else {
      OnExchangeFault(s, outcome);
      CloseKeeps(s);
      if RestartOf(s.state) != STOPPED {
        RestartableIsExchange(s.state);
        NoRestartFromPages();
        TimeoutKeeps(s, RestartOf(s.state));
      }
    }
  }

  lemma NoRestartFromPages()
    ensures RestartOf(SENDING_ARCHIVE_PAGE_ANSWER) == STOPPED
  {
  }

  lemma IdleFaultKeeps(s: Session, outcome: Outcome)
    requires Core(s) && s.pending == Nothing && outcome != Success
    requires s.state.STOPPED? || s.state.WAITING_ACK_MAIN_MODE? || s.state.WAITING_ACK_TIME_SET?
          || s.state.WAITING_NEXT_MEASURE_TICK?
    requires !s.state.STOPPED? ==> s.timeouts <= 5 && s.errors <= 100
    requires s.state.WAITING_NEXT_MEASURE_TICK? ==> s.timeouts <= 4
    ensures Inv(OnFault(s, outcome))
  {
    if s.state.STOPPED? {
      hide ReadAll;
    } else {
      assert s.open && s.coordsValid by { hide ReadAll; }
      hide Core, WithinBudget, PendingFits, Close, Send, Await, Goto, HandleGenericErrors, WaitForNextMeasure, TimeSet;
      if s.state.WAITING_ACK_MAIN_MODE? {
        MainModeFaultKeeps(s, outcome);
      } else {
        WaitKeeps(s);
        if s.state.WAITING_NEXT_MEASURE_TICK? {
          TickKeeps(s);
        }
      }
    }
  }

  lemma TickKeeps(s: Session)
    requires Core(s) && s.open && s.timeouts <= 4 && s.errors <= 100 && s.state.WAITING_NEXT_MEASURE_TICK?
    ensures Inv(Restart(s, SENDING_WAKE_UP_ARCHIVE))
  {
    var t := s.(state := SENDING_WAKE_UP_ARCHIVE);
    MoveKeeps(t, SENDING_WAKE_UP_ARCHIVE, Echo);
    hide Core;
  }

  lemma AckReadKeeps(s: Session, ack: int)
    requires Inv(s)
    ensures Core(s.(pending := Nothing, ack := ack)) && WithinBudget(s.(pending := Nothing, ack := ack))
    ensures s.pending.Operation? ==> Inv(s.(ack := ack))
    ensures Core(s.(pending := Nothing)) && Core(s.(pending := Nothing, timeouts := s.timeouts + 1))
    ensures Inv(s.(setTimeRequested := true, setTimeArmed := false))
  {
    hide ReadAll;
  }

  lemma FlushKeeps(s: Session)
    requires Inv(s) && s.pending.Flush?
    ensures Inv(Restart(s.(pending := Nothing), s.pending.restart))
  {
    var r := s.pending.restart;
    RestartFacts(s.state, r);
    AckReadKeeps(s, s.ack);
    assert Identified(r) ==> s.coordsValid;
    MoveKeeps(s.(pending := Nothing), r, RequestOf(r));
    hide Core, WithinBudget;
  }

  lemma FaultReady(s: Session)
    requires Inv(s)
    ensures Core(s.(pending := Nothing)) && Core(s.(pending := Nothing, timeouts := s.timeouts + 1))
    ensures !s.state.STOPPED? ==> s.timeouts <= 4 && s.errors <= 100
    ensures s.state.WAITING_NEXT_MEASURE_TICK? ==> s.timeouts == 0
  {
    hide Core, PendingFits;
    AckReadKeeps(s, s.ack);
  }

  lemma FailedKeeps(s: Session)
    requires Inv(s) && Enabled(s, Failed)
    ensures Inv(Step(s, Failed))
  {
    hide Inv, Core, OnFault;
    FaultReady(s);
    FaultKeeps(s.(pending := Nothing), Broken);
  }

  lemma DeadlineKeeps(s: Session)
    requires Inv(s) && Enabled(s, Deadline)
    ensures Inv(Step(s, Deadline))
  {
    hide Inv, Core, OnFault;
    FaultReady(s);
    FaultKeeps(s.(pending := Nothing, timeouts := s.timeouts + 1), TimedOut);
  }

  lemma DoneKeeps(s: Session, input: Input)
    requires Inv(s) && Enabled(s, Done(input))
    ensures Inv(Step(s, Done(input)))
  {
    AckReadKeeps(s, input.ack);
    AckReadKeeps(s, s.ack);
    hide Core, WithinBudget, PendingFits, OnSuccess;
    if !Swallowed(s, Done(input)) {
      var idle := s.(pending := Nothing);
      SuccessKeeps(if ReadsAck(s.state) then idle.(ack := input.ack) else idle, input);
    }
  }

  lemma OtherwiseKeeps(s: Session, e: Event)
    requires Inv(s) && !(Enabled(s, e) && (e.Done? || e.Failed? || e.Deadline?))
    ensures Inv(Step(s, e))
  {
    AckReadKeeps(s, s.ack);
    if s.pending.Flush? {
      FlushKeeps(s);
    }
    CloseKeeps(s);
    hide Inv, Core, Restart, Close;
  }

  /** One event, whatever it is. */
  lemma StepKeeps(s: Session, e: Event)
    requires Inv(s)
    ensures Inv(Step(s, e))
  {
    hide Inv, Step, Enabled;
    if !(Enabled(s, e) && (e.Done? || e.Failed? || e.Deadline?)) {
      OtherwiseKeeps(s, e);
    } else {
      match e
      case Done(input) => DoneKeeps(s, input);
      case Failed => FailedKeeps(s);
      case Deadline => DeadlineKeeps(s);
    }
  }

  /** Every reachable session satisfies the invariant. */
  lemma {:induction false} RunKeeps(s: Session, events: seq<Event>)
    requires Inv(s)
    ensures Inv(Run(s, events))
  {
    if events == [] {
    } else {
      RunKeeps(s, events[..|events| - 1]);
      hide Inv;
      StepKeeps(Run(s, events[..|events| - 1]), events[|events| - 1]);
    }
  }

  lemma StartedInv(now: int, hasPublisher: bool)
    ensures Inv(Started(now, hasPublisher))
  {
    hide ReadAll;
    ReadStart(now / SECOND);
    ReadSent(Trace.Start(now / SECOND), Echo);
  }

  lemma ReadStart(created: int)
    ensures ReadAll(Trace.Start(created))
         == Reader(created, None, false, 0, 0, None, None, {}, {}, NoDownload, true)
  {
  }

  // ------------------------------------------------------------------- safety results

  /** `b` is what the log was at some earlier moment. */
  predicate Earlier(b: Trace, t: Trace) {
    b == t || (t.Then? && Earlier(b, t.before))
  }

  lemma {:induction false} EarlierIsSound(b: Trace, a: Action, t: Trace)
    requires ReadAll(t).sound && Earlier(Then(b, a), t)
    ensures ReadAll(b).sound && Justified(ReadAll(b), a)
  {
    if Then(b, a) == t {
    } else {
      EarlierIsSound(b, a, t.before);
    }
  }

  /** Every entry of the log of every run was justified when it was written. */
  lemma EntryIsJustified(now: int, hasPublisher: bool, events: seq<Event>, b: Trace, a: Action)
    requires Earlier(Then(b, a), Run(Started(now, hasPublisher), events).trace)
    ensures ReadAll(b).sound && Justified(ReadAll(b), a)
  {
    hide ReadAll, Earlier, Started, Justified;
    StartedInv(now, hasPublisher);
    RunKeeps(Started(now, hasPublisher), events);
    EarlierIsSound(b, a, Run(Started(now, hasPublisher), events).trace);
  }

  /** Whether a watermark has been written, and whether a download has completed. */
  predicate AnyWatermark(t: Trace) {
    t.Then? && (t.last.Watermark? || AnyWatermark(t.before))
  }

  predicate AnyCompleted(t: Trace) {
    t.Then? && (t.last.Completed? || AnyCompleted(t.before))
  }

  lemma {:induction false} ReaderRemembers(t: Trace)
    ensures ReadAll(t).mark.Some? <==> AnyWatermark(t)
    ensures ReadAll(t).completed <==> AnyCompleted(t)
  {
    if t.Start? {
    } else {
      ReaderRemembers(t.before);
    }
  }

  /** Watermarks, in every run: each one written is after the epoch, above all previous
      ones, not below the prepared beginning, and equal to the maximum of that beginning
      and of the relevant timestamps of all pages accepted before it. */
  lemma WatermarksRise(now: int, hasPublisher: bool, events: seq<Event>, b: Trace, w: int)
    requires Earlier(Then(b, Watermark(w)), Run(Started(now, hasPublisher), events).trace)
    ensures var r := ReadAll(b);
      w > (if r.mark.Some? then r.mark.value else 0) && w >= r.beginning && w == r.seen
  {
    EntryIsJustified(now, hasPublisher, events, b, Watermark(w));
  }

  lemma RowsGrow(t: Trace)
    requires t.Then?
    ensures var r, u := ReadAll(t.before), ReadAll(t);
      r.rows <= u.rows && r.batched <= u.batched
  {
    hide Justified, NextDownload, Latest;
  }

  lemma {:induction false} RowsStay(b: Trace, t: Trace)
    requires Earlier(b, t)
    ensures ReadAll(b).rows <= ReadAll(t).rows && ReadAll(b).batched <= ReadAll(t).batched
  {
    hide ReadAll;
    if b == t {
    } else {
      RowsStay(b, t.before);
      RowsGrow(t);
    }
  }

  /** Nothing wanted is missing: when a page is accepted, and at every later moment,
      each of its wanted records is in both databases. */
  lemma AcceptedRecordsAreStored(now: int, hasPublisher: bool, events: seq<Event>,
                                 b: Trace, page: seq<DataPoint>, at: Clock, p: DataPoint)
    requires Earlier(Then(b, Accepted(page, at)), Run(Started(now, hasPublisher), events).trace)
    requires p in page && Wanted(p, ReadAll(b).beginning, at)
    ensures p in ReadAll(b).rows && p in ReadAll(b).batched
    ensures var t := Run(Started(now, hasPublisher), events).trace;
      p in ReadAll(t).rows && p in ReadAll(t).batched
  {
    var t := Run(Started(now, hasPublisher), events).trace;
    EntryIsJustified(now, hasPublisher, events, b, Accepted(page, at));
    EarlierBefore(b, Accepted(page, at), t);
    RowsStay(b, t);
  }

  lemma {:induction false} EarlierBefore(b: Trace, a: Action, t: Trace)
    requires Earlier(Then(b, a), t)
    ensures Earlier(b, t)
  {
    if Then(b, a) == t {
    } else {
      EarlierBefore(b, a, t.before);
    }
  }

  /** Pages are conserved: at any moment of a download the pages left and the pages
      accepted add up to the announced count, every page read has been answered, and
      no page is read when none is left. Rejected pages change none of it. */
  lemma PagesConserved(now: int, hasPublisher: bool, events: seq<Event>)
    ensures var s := Run(Started(now, hasPublisher), events);
      s.open && Downloading(s.state) ==>
        var d := ReadAll(s.trace).download;
        && d.Download?
        && s.pagesLeft >= 0 && s.pagesLeft + d.accepted == d.announced
        && d.acks == d.accepted + 1 && d.naks == d.rejected
        && (s.state.WAITING_ARCHIVE_PAGE? ==> s.pagesLeft > 0)
  {
    StartedInv(now, hasPublisher);
    RunKeeps(Started(now, hasPublisher), events);
  }

  /** A download is declared complete only after exactly as many pages as announced
      have been accepted, each of them answered. */
  lemma CompletedMeansAllPages(now: int, hasPublisher: bool, events: seq<Event>, b: Trace)
    requires Earlier(Then(b, Completed), Run(Started(now, hasPublisher), events).trace)
    ensures var d := ReadAll(b).download;
      d.Download? && d.accepted == d.announced && d.acks == d.accepted + 1 && d.naks == d.rejected
  {
    EntryIsJustified(now, hasPublisher, events, b, Completed);
  }

  /** Each job published ends at the last watermark if one has been written, at the epoch
      otherwise. It begins at the creation of the connector, or at the most recent date
      after the first page ever accepted if that is earlier: later pages have no say. */
  lemma JobsEndAtTheWatermark(now: int, hasPublisher: bool, events: seq<Event>, b: Trace, oldest: int, newest: int)
    requires Earlier(Then(b, JobPublished(oldest, newest)), Run(Started(now, hasPublisher), events).trace)
    ensures var r := ReadAll(b);
      && (AnyWatermark(b) ==> r.mark == Some(newest))
      && (!AnyWatermark(b) ==> newest == 0)
      && oldest == (if r.first.Some? && r.first.value < r.created then r.first.value else r.created)
  {
    EntryIsJustified(now, hasPublisher, events, b, JobPublished(oldest, newest));
    ReaderRemembers(b);
  }

  predicate TopHolds(r: Reader) {
    forall p :: p in r.rows ==> r.top.Some? && p.time <= r.top.value
  }

  lemma TopStep(r: Reader, a: Action)
    requires TopHolds(r)
    ensures TopHolds(Read(r, a))
  {
    hide Justified, NextDownload, Latest;
  }

  lemma {:induction false} TopIsLatest(t: Trace)
    ensures TopHolds(ReadAll(t))
  {
    if t.Start? {
    } else {
      TopIsLatest(t.before);
      TopStep(ReadAll(t.before), t.last);
      hide Read, TopHolds;
    }
  }

  /** The span of a job holds all rows inserted so far if and only if none of them is
      earlier both than the creation of the connector and than the most recent date after
      the first page accepted. `VantagePro2Scenarios.JobMissesARow` is a run where one is. */
  lemma JobCoversIff(now: int, hasPublisher: bool, events: seq<Event>, b: Trace, oldest: int, newest: int)
    requires Earlier(Then(b, JobPublished(oldest, newest)), Run(Started(now, hasPublisher), events).trace)
    ensures var r := ReadAll(b);
      (forall p :: p in r.rows ==> oldest <= p.time <= newest)
      <==> forall p :: p in r.rows ==> r.created <= p.time || (r.first.Some? && r.first.value <= p.time)
  {
    EntryIsJustified(now, hasPublisher, events, b, JobPublished(oldest, newest));
    TopIsLatest(b);
    hide ReadAll;
  }

  /** A job published before any watermark is dropped by the debouncer unless it begins at
      the epoch or before, on a day that is over. */
  lemma JobWithoutWatermark(now: int, hasPublisher: bool, events: seq<Event>, b: Trace, oldest: int, newest: int,
                            station: AsyncJobPublishers.Station, at: int)
    requires Earlier(Then(b, JobPublished(oldest, newest)), Run(Started(now, hasPublisher), events).trace)
    requires !AnyWatermark(b)
    ensures AsyncJobPublishers.Accepted(AsyncJobPublishers.Request(station, oldest, newest, at))
       <==> oldest <= 0 && Day(oldest) < Day(at)
  {
    JobsEndAtTheWatermark(now, hasPublisher, events, b, oldest, newest);
  }

  /** A page damaged by one burst of up to sixteen bits is refused: the session asks for
      it again, or gives up, and nothing else changes. */
  lemma DamagedPageIsRefused(s: Session, input: Input, good: seq<bv8>, bad: seq<bv8>, k: nat, offset: int)
    requires s.open && s.state.WAITING_ARCHIVE_PAGE?
    requires |good| == PAGE_SIZE && |bad| == PAGE_SIZE && k + 16 <= 8 * PAGE_SIZE
    requires Crc.Validates(good) && Crc.Bits(good) != Crc.Bits(bad)
    requires Crc.Bits(good)[..k] == Crc.Bits(bad)[..k] && Crc.Bits(good)[k + 16..] == Crc.Bits(bad)[k + 16..]
    requires input.page == ReadPage(bad, offset)
    ensures var t := OnSuccess(s, input);
      && t.pagesLeft == s.pagesLeft && t.mostRecent == s.mostRecent && t.newest == s.newest
      && t.errors == s.errors + 1
      && t.trace == Then(Then(s.trace, Rejected), if s.errors < 100 then Sent(Nak) else Closed)
  {
    hide Crc.Bits, Crc.Validates, PointAt;
    CrcProofs.BurstDetected(good, bad, k);
  }

  /** A number of pages is announced exactly when the check of its six bytes is right. */
  lemma AnnouncedIffChecked(s: Session, input: Input, bytes: seq<bv8>)
    requires s.open && s.state.WAITING_ARCHIVE_NB_PAGES? && |bytes| == 6 && input.size == ReadSize(bytes)
    ensures var t, n := OnSuccess(s, input), WordAt(bytes, 0);
      && t.pagesLeft == n
      && (if Crc.Validates(bytes) then
            t.state.SENDING_ACK_ARCHIVE_DOWNLOAD? && t.trace == Then(Then(s.trace, Announced(n)), Sent(Ack))
          else
            t.state.SENDING_ABORT_ARCHIVE_DOWNLOAD? && t.trace == Then(s.trace, Sent(Abort)))
  {
    hide Crc.Validates, WordAt, Log, OnSuccess;
    var t := s.(pagesLeft := input.size.pages);
    OnDownload(s, input);
    LogFrame(t, Announced(input.size.pages));
    LogFrame(Goto(Log(t, Announced(input.size.pages)), SENDING_ACK_ARCHIVE_DOWNLOAD), Sent(Ack));
    LogFrame(Goto(t, SENDING_ABORT_ARCHIVE_DOWNLOAD), Sent(Abort));
  }

  /** An announcement damaged by one burst of up to sixteen bits aborts the download. */
  lemma DamagedSizeIsRefused(s: Session, input: Input, good: seq<bv8>, bad: seq<bv8>, k: nat)
    requires s.open && s.state.WAITING_ARCHIVE_NB_PAGES?
    requires |good| == 6 && |bad| == 6 && k + 16 <= 48 && input.size == ReadSize(bad)
    requires Crc.Validates(good) && Crc.Bits(good) != Crc.Bits(bad)
    requires Crc.Bits(good)[..k] == Crc.Bits(bad)[..k] && Crc.Bits(good)[k + 16..] == Crc.Bits(bad)[k + 16..]
    ensures var t := OnSuccess(s, input);
      t.state.SENDING_ABORT_ARCHIVE_DOWNLOAD? && t.trace == Then(s.trace, Sent(Abort))
  {
    hide Crc.Bits, Crc.Validates, OnSuccess, WordAt;
    CrcProofs.BurstDetected(good, bad, k);
    AnnouncedIffChecked(s, input, bad);
  }

  /** Each archive request asks for what follows the last watermark if there is one.
      Otherwise it asks for what follows the prepared beginning if no download has
      completed yet, and for everything since the epoch if one has. */
  lemma RequestsResumeAtTheWatermark(now: int, hasPublisher: bool, events: seq<Event>, b: Trace, since: int)
    requires Earlier(Then(b, Sent(ArchiveParams(since))), Run(Started(now, hasPublisher), events).trace)
    ensures var r := ReadAll(b);
      && (AnyWatermark(b) ==> r.mark == Some(since))
      && (!AnyWatermark(b) ==> since == if AnyCompleted(b) then 0 else r.beginning)
  {
    EntryIsJustified(now, hasPublisher, events, b, Sent(ArchiveParams(since)));
    ReaderRemembers(b);
  }

  /** Once the socket is closed nothing leaves the connector any more: no page is
      stored, no watermark moves, nothing is sent, whatever happens next, even though
      a page that could not be stored overwrites the STOPPED state. */
  lemma {:induction false} ClosedForGood(s: Session, events: seq<Event>)
    requires Inv(s) && !s.open
    ensures var t := Run(s, events);
      && !t.open && t.trace == s.trace
      && t.newest == s.newest && t.mostRecent == s.mostRecent && t.lastArchive == s.lastArchive
  {
    if events == [] {
    } else {
      var n := |events| - 1;
      ClosedForGood(s, events[..n]);
      RunKeeps(s, events[..n]);
      ClosedStep(Run(s, events[..n]), events[n]);
    }
  }

  lemma ClosedStep(s: Session, e: Event)
    requires Inv(s) && !s.open
    ensures var t := Step(s, e);
      && !t.open && t.trace == s.trace
      && t.newest == s.newest && t.mostRecent == s.mostRecent && t.lastArchive == s.lastArchive
    ensures Enabled(s, e) && !e.SetTimeDue? ==> Step(s, e).state.STOPPED? && Step(s, e).pending == Nothing
  {
    assert (s.state.STOPPED? || s.state.SENDING_ARCHIVE_PAGE_ANSWER?) && !s.pending.Flush? && !s.pending.Tick?
      by { hide ReadAll; }
    hide Inv, Step;
    ClosedStepIs(s, e);
  }

  /** Besides the state, a closed session only has its timers and counters to change. */
  lemma ClosedStepIs(s: Session, e: Event)
    requires !s.open && (s.state.STOPPED? || s.state.SENDING_ARCHIVE_PAGE_ANSWER?)
    requires !s.pending.Flush? && !s.pending.Tick?
    ensures var t := Step(s, e);
      t == if !Enabled(s, e) then s
        else if e.SetTimeDue? then s.(setTimeRequested := true, setTimeArmed := false)
        else s.(state := STOPPED, pending := Nothing, timeouts := t.timeouts, setTimeArmed := t.setTimeArmed)
  {
    hide OnFault, OnSuccess, Close, IsLineEnd;
    ClosedClose(s);
    if e.Failed? || e.Deadline? {
      var t := s.(pending := Nothing, timeouts := if e.Failed? then s.timeouts else s.timeouts + 1);
      ClosedFault(t, if e.Failed? then Broken else TimedOut);
      ClosedClose(t);
    }
  }

  lemma ClosedClose(s: Session)
    requires !s.open
    ensures Close(s) == s.(state := STOPPED, pending := Nothing, setTimeArmed := false)
  {
  }

  lemma ClosedFault(s: Session, outcome: Outcome)
    requires !s.open && s.pending == Nothing && (s.state.STOPPED? || s.state.SENDING_ARCHIVE_PAGE_ANSWER?)
    ensures OnFault(s, outcome) == if s.state.STOPPED? then s else Close(s)
  {
    hide Close;
    if s.state.SENDING_ARCHIVE_PAGE_ANSWER? {
      NoRestartFromPages();
      OnExchangeFault(s, outcome);
      hide OnFault;
    }
  }

  lemma {:induction false} MarksBelow(b: Trace, w: int, t: Trace)
    requires Earlier(Then(b, Watermark(w)), t) && ReadAll(t).sound
    ensures ReadAll(t).mark.Some? && w <= ReadAll(t).mark.value
  {
    if Then(b, Watermark(w)) == t {
    } else {
      MarksBelow(b, w, t.before);
    }
  }

  /** Of two watermarks written in a run, the later one is strictly greater. */
  lemma WatermarksIncrease(now: int, hasPublisher: bool, events: seq<Event>, b: Trace, v: int, c: Trace, w: int)
    requires Earlier(Then(b, Watermark(v)), c)
    requires Earlier(Then(c, Watermark(w)), Run(Started(now, hasPublisher), events).trace)
    ensures v < w
  {
    EntryIsJustified(now, hasPublisher, events, c, Watermark(w));
    MarksBelow(b, v, c);
  }

  // ----------------------------------------------- where the code does something else

  /** The check of the timezone answer reads the coordinates again, which were valid
      when the station was identified: it accepts every answer. */
  lemma TimezoneCheckIsVacuous(now: int, hasPublisher: bool, events: seq<Event>, input: Input)
    requires var s := Run(Started(now, hasPublisher), events); s.open && s.state.WAITING_DATA_TIMEZONE?
    ensures var s := Run(Started(now, hasPublisher), events);
      var t := TimezoneReceived(s, input);
      (t.state.SENDING_WAKE_UP_ARCHIVE? || t.state.SENDING_WAKE_UP_SETTIME?) && t.beginning == s.lastArchive
  {
    var s := Run(Started(now, hasPublisher), events);
    StartedInv(now, hasPublisher);
    RunKeeps(Started(now, hasPublisher), events);
    IdentifiedIsValid(s);
    hide Inv, Run, Started, Log;
    var t := s.(beginning := s.lastArchive, mostRecent := s.lastArchive);
    var u := Log(t, Prepared(s.lastArchive));
    LogFrame(t, Prepared(s.lastArchive));
    LogFrame(Goto(u, SENDING_WAKE_UP_ARCHIVE), Sent(Echo));
    LogFrame(Goto(u, SENDING_WAKE_UP_SETTIME), Sent(Echo));
  }

  lemma IdentifiedIsValid(s: Session)
    requires Inv(s) && s.open && Identified(s.state)
    ensures s.coordsValid
  {
    hide ReadAll, Identified, Prepped, Downloading;
  }

  /** A download that completes sets the in-memory date of the last archive back in
      time exactly when no watermark has been written yet and that date is after the
      epoch: the newest date starts from the epoch, not from the stored date. */
  lemma LastArchiveRegressesIff(now: int, hasPublisher: bool, events: seq<Event>, later: int)
    requires var s := Run(Started(now, hasPublisher), events);
      s.open && Downloading(s.state) && s.pagesLeft == 0
    ensures var s := Run(Started(now, hasPublisher), events);
      DownloadOver(s, later).lastArchive < s.lastArchive <==> !AnyWatermark(s.trace) && s.lastArchive > 0
  {
    var s := Run(Started(now, hasPublisher), events);
    StartedInv(now, hasPublisher);
    RunKeeps(Started(now, hasPublisher), events);
    ReaderRemembers(s.trace);
    hide ReadAll, AnyWatermark, Run, Started;
  }

  lemma TimeoutsLeft(s: Session)
    requires Inv(s) && !s.state.STOPPED?
    ensures s.timeouts <= 4
  {
    hide Core, PendingFits;
  }

  /** A missed deadline is retried only while at most two have been counted: each one
      counts twice, in the timer handler and in the error handler, so a cycle that
      began with a tick (which counts once) survives one missed deadline, the first
      connection two. */
  lemma TimeoutRetriedIff(s: Session)
    requires Inv(s) && s.open && s.pending.Operation? && RestartOf(s.state) != STOPPED
    ensures var t := Step(s, Deadline);
      && (t.open <==> s.timeouts <= 2)
      && (t.open ==> t.pending == Flush(RestartOf(s.state)) && t.timeouts == s.timeouts + 2)
  {
    hide Inv, OnFault, Step, RestartOf;
    RestartableIsExchange(s.state);
    TimeoutsLeft(s);
    DeadlineStep(s);
    OnExchangeFault(s.(pending := Nothing, timeouts := s.timeouts + 1), TimedOut);
  }

  lemma DeadlineStep(s: Session)
    requires s.pending.Operation?
    ensures Step(s, Deadline) == OnFault(s.(pending := Nothing, timeouts := s.timeouts + 1), TimedOut)
  {
    hide OnFault;
  }

  /** A wrong acknowledgement is asked for again as long as at most three answers have
      been wrong since the last cycle, from the request of that exchange; the archive
      parameters are never sent twice. */
  lemma WrongAckRetriedIff(s: Session, input: Input)
    requires Inv(s) && s.open && s.pending.Operation?
    requires s.state.WAITING_ACK_STATION? || s.state.WAITING_ACK_TIMEZONE? || s.state.WAITING_ACK_ARCHIVE?
          || s.state.WAITING_ACK_ARCHIVE_PARAMS? || s.state.WAITING_ACK_SETTIME?
    requires input.ack != 0x06 && input.ack != 0x0a && input.ack != 0x0d
    ensures var t := Step(s, Done(input));
      && (t.open <==> s.errors <= 3 && !s.state.WAITING_ACK_ARCHIVE_PARAMS?)
      && (t.open ==> t.pending == Flush(RestartOf(s.state)) && t.errors == s.errors + 1 && t.timeouts == s.timeouts)
  {
    hide ReadAll, PendingFits, Agrees;
    assert s.errors <= 100;
    hide Core;
  }

  /** An I/O error ends the session, except while an acknowledgement is read just
      after a line end, where the read is silently started again, and except at the
      very end of setting the clock. */
  lemma IoErrorStopsIff(s: Session)
    requires Inv(s) && s.open && s.pending.Operation?
    ensures Step(s, Failed).open <==>
      || s.state.WAITING_ACK_TIME_SET?
      || ((s.ack == 0x0a || s.ack == 0x0d)
          && (s.state.WAITING_ACK_STATION? || s.state.WAITING_ACK_TIMEZONE? || s.state.WAITING_ACK_ARCHIVE?
              || s.state.WAITING_ACK_ARCHIVE_PARAMS? || s.state.WAITING_ACK_SETTIME?))
    ensures ReadsAck(s.state) && IsLineEnd(s.ack) ==> Step(s, Failed) == s
  {
    hide ReadAll;
  }
}

/** Two whole runs: one in which the station announces no page, which sets the date of the
    last archive back to the epoch, and one in which it sends a single page, whose job does
    not cover what has been stored. */
module VantagePro2Scenarios {
  import opened Common
  import opened VantagePro2ArchivePages
  import opened VantagePro2Protocol
  import opened VantagePro2Runs

  /** The stored date, the present time, and what the station announces and sends. */
  datatype Scenario = Scenario(last: int, later: int, pages: Word16, page: PageBuffer)

  /** The station acknowledges everything, and the databases accept everything. */
  function Answer(c: Scenario): Input {
    Input(ACK, true, Known(5, c.last), SizeBuffer(true, c.pages), c.page, Database({}, true),
          Clock(c.later, c.later), c.later)
  }

  function EventAt(n: nat, c: Scenario): Event {
    if n == 24 then Deadline else Done(Answer(c))
  }

  function Events(n: nat, c: Scenario): (events: seq<Event>)
    ensures |events| == n
  {
    if n == 0 then [] else Events(n - 1, c) + [EventAt(n - 1, c)]
  }

  /** The state after each event. */
  function Stage(n: nat): State
    requires n < 30
  {
    var k := if n <= 24 then n else n - 15;
    if k <= 4 then
      match k
      case 0 => SENDING_WAKE_UP_STATION
      case 1 => WAITING_ECHO_STATION
      case 2 => SENDING_REQ_STATION
      case 3 => WAITING_ACK_STATION
      case _ => WAITING_DATA_STATION
    else if k <= 9 then
      match k
      case 5 => SENDING_REQ_MAIN_MODE
      case 6 => WAITING_ACK_MAIN_MODE
      case 7 => SENDING_REQ_TIMEZONE
      case 8 => WAITING_ACK_TIMEZONE
      case _ => WAITING_DATA_TIMEZONE
    else if k <= 17 then
      match k
      case 10 => SENDING_WAKE_UP_ARCHIVE
      case 11 => WAITING_ECHO_ARCHIVE
      case 12 => SENDING_REQ_ARCHIVE
      case 13 => WAITING_ACK_ARCHIVE
      case 14 => SENDING_ARCHIVE_PARAMS
      case 15 => WAITING_ACK_ARCHIVE_PARAMS
      case 16 => WAITING_ARCHIVE_NB_PAGES
      case _ => SENDING_ACK_ARCHIVE_DOWNLOAD
    else
      match k
      case 18 => SENDING_WAKE_UP_SETTIME
      case 19 => WAITING_ECHO_SETTIME
      case 20 => SENDING_SETTIME
      case 21 => WAITING_ACK_SETTIME
      case 22 => SENDING_SETTIME_PARAMS
      case 23 => WAITING_ACK_TIME_SET
      case _ => WAITING_NEXT_MEASURE_TICK
  }

  predicate At(n: nat, s: Session, created: int, c: Scenario)
    requires n < 30
  {
    && s.open && s.state == Stage(n) && s.pending == (if n == 24 then Tick else Operation)
    && s.newest == 0 && s.oldest == created && s.hasPublisher && !AnyWatermark(s.trace)
    && (5 <= n ==> s.coordsValid && s.polling == 5)
    && (5 <= n ==> s.lastArchive == if n <= 17 then c.last else 0)
    && (10 <= n ==> s.beginning == c.last)
    && (10 <= n <= 17 ==> s.mostRecent == c.last)
    && (n == 17 ==> s.pagesLeft == c.pages)
    && (n <= 23 ==> s.setTimeRequested)
    && (n == 18 ==> s.trace.Then? && s.trace.before.Then? && s.trace.before.last == JobPublished(created, 0))
    && (n == 29 ==> s.trace.Then? && s.trace.last == Sent(ArchiveParams(0)))
  }

  predicate Late(created: int, c: Scenario) {
    c.last > 0 && c.later - Ticks(c.last) > Ticks(300) && Day(created) < Day(c.later / SECOND)
  }

  /** The step from stage n, when the event completes the pending operation. */
  function AfterAnswer(n: nat, s: Session, c: Scenario): Session
    requires n < 29
  {
    OnSuccess(s.(pending := Nothing, ack := if ReadsAck(s.state) then ACK else s.ack), Answer(c))
  }

  lemma StepIsCompletion(n: nat, s: Session, created: int, c: Scenario)
    requires n < 29 && n != 24 && At(n, s, created, c)
    ensures Step(s, EventAt(n, c)) == AfterAnswer(n, s, c)
  {
    hide OnSuccess, AnyWatermark;
  }

  lemma NoWatermarkThen(t: Trace, a: Action)
    requires !AnyWatermark(t) && !a.Watermark?
    ensures !AnyWatermark(Then(t, a))
  {
  }

  lemma AdvanceIdentification(n: nat, s: Session, created: int, c: Scenario)
    requires n < 10 && At(n, s, created, c) && Late(created, c)
    ensures At(n + 1, AfterAnswer(n, s, c), created, c)
  {
    hide AnyWatermark, OnSuccess;
    var t := s.(pending := Nothing, ack := if ReadsAck(s.state) then ACK else s.ack);
    OnIdentification(t, Answer(c));
    OnConfiguration(t, Answer(c));
    NoWatermarkThen(s.trace, Sent(GetStation));
    NoWatermarkThen(s.trace, Sent(MainMode));
    NoWatermarkThen(s.trace, Sent(GetTimezone));
    NoWatermarkThen(s.trace, Prepared(c.last));
    NoWatermarkThen(Then(s.trace, Prepared(c.last)), Sent(Echo));
  }

  lemma AdvanceRequest(n: nat, s: Session, created: int, c: Scenario)
    requires 10 <= n < 18 && (n == 17 ==> c.pages == 0) && At(n, s, created, c) && Late(created, c)
    ensures At(n + 1, AfterAnswer(n, s, c), created, c)
  {
    hide AnyWatermark, OnSuccess;
    var t := s.(pending := Nothing, ack := if ReadsAck(s.state) then ACK else s.ack);
    OnRequest(t, Answer(c));
    OnDownload(t, Answer(c));
    NoWatermarkThen(s.trace, Sent(GetArchive));
    NoWatermarkThen(s.trace, Sent(ArchiveParams(c.last)));
    NoWatermarkThen(s.trace, Announced(c.pages));
    NoWatermarkThen(Then(s.trace, Announced(c.pages)), Sent(Ack));
    NoWatermarkThen(s.trace, Completed);
    var over := Then(s.trace, Completed);
    NoWatermarkThen(over, JobPublished(created, 0));
    NoWatermarkThen(Then(over, JobPublished(created, 0)), Sent(Echo));
  }

  lemma AdvanceClock(n: nat, s: Session, created: int, c: Scenario)
    requires 18 <= n < 29 && n != 24 && At(n, s, created, c)
    ensures At(n + 1, AfterAnswer(n, s, c), created, c)
  {
    hide AnyWatermark, OnSuccess;
    var t := s.(pending := Nothing, ack := if ReadsAck(s.state) then ACK else s.ack);
    OnSetTime(t, Answer(c));
    OnEnd(t, Answer(c));
    OnRequest(t, Answer(c));
    NoWatermarkThen(s.trace, Sent(SetTime));
    NoWatermarkThen(s.trace, Sent(SetTimeParams));
    NoWatermarkThen(s.trace, Sent(GetArchive));
    NoWatermarkThen(s.trace, Sent(ArchiveParams(0)));
  }

  lemma AdvanceTick(s: Session, created: int, c: Scenario)
    requires At(24, s, created, c)
    ensures At(25, Step(s, EventAt(24, c)), created, c)
  {
    hide AnyWatermark, OnSuccess;
    NoWatermarkThen(s.trace, Sent(Echo));
  }

  lemma {:induction false} Walk(n: nat, now: int, c: Scenario)
    requires n < 30 && (n > 17 ==> c.pages == 0) && Late(now / SECOND, c)
    ensures At(n, Run(Started(now, true), Events(n, c)), now / SECOND, c)
  {
    hide At, AfterAnswer, Step, EventAt, Stage;
    var created := now / SECOND;
    if n == 0 {
      Start(now, c);
    } else {
      var events := Events(n, c);
      var s := Run(Started(now, true), Events(n - 1, c));
      assert events[..n - 1] == Events(n - 1, c) && events[n - 1] == EventAt(n - 1, c);
      Walk(n - 1, now, c);
      Advance(n - 1, s, created, c);
    }
  }

  lemma Start(now: int, c: Scenario)
    ensures At(0, Started(now, true), now / SECOND, c)
  {
    assert !AnyWatermark(Trace.Start(now / SECOND));
    NoWatermarkThen(Trace.Start(now / SECOND), Sent(Echo));
    hide AnyWatermark;
  }

  lemma Advance(n: nat, s: Session, created: int, c: Scenario)
    requires n < 29 && (n >= 17 ==> c.pages == 0) && At(n, s, created, c) && Late(created, c)
    ensures At(n + 1, Step(s, EventAt(n, c)), created, c)
  {
    hide At, AfterAnswer, Step, EventAt, Late;
    if n == 24 {
      AdvanceTick(s, created, c);
    } else {
      StepIsCompletion(n, s, created, c);
      if n < 10 {
        AdvanceIdentification(n, s, created, c);
      } else if n < 18 {
        AdvanceRequest(n, s, created, c);
      } else {
        AdvanceClock(n, s, created, c);
      }
    }
  }

  /** The input on which the date of the last archive is lost: for any last archive after
      the epoch, when the station announces no page at the first download, completing it
      sets that date back to the epoch, publishes a job that ends there, and the next
      request asks for everything since the epoch, no watermark ever having been
      written. */
  lemma ZeroPagesLoseTheDate(now: int, c: Scenario)
    requires Late(now / SECOND, c) && c.pages == 0
    ensures var s := Run(Started(now, true), Events(17, c));
      && s.open && Downloading(s.state) && s.pagesLeft == 0 && s.lastArchive == c.last
      && DownloadOver(s, c.later).lastArchive == 0 < s.lastArchive
    ensures var t := Run(Started(now, true), Events(18, c)).trace;
      t.Then? && t.before.Then? && t.before.last == JobPublished(now / SECOND, 0) && !AnyWatermark(t)
    ensures var t := Run(Started(now, true), Events(29, c)).trace;
      t.Then? && t.last == Sent(ArchiveParams(0)) && !AnyWatermark(t)
  {
    hide AnyWatermark, Run, Started, Events;
    Walk(17, now, c);
    Walk(18, now, c);
    Walk(29, now, c);
  }

  // ------------------------------------------------------------------------- one page

  /** A page of two records, the earlier one first, both after the stored date and before
      the connector was created. */
  predicate OnePage(created: int, c: Scenario, p: DataPoint, q: DataPoint) {
    && c.pages == 1 && c.page == PageBuffer(true, [p, q])
    && !p.dash && !p.blank && !q.dash && !q.blank
    && c.last < p.time < q.time < created && Ticks(q.time) < c.later
  }

  function Idle(s: Session): Session {
    s.(pending := Nothing)
  }

  lemma StorePair(p: DataPoint, q: DataPoint, last: int, clock: Clock)
    requires !p.dash && !p.blank && !q.dash && !q.blank && last < p.time < q.time
    requires clock.relevance == clock.validity && Ticks(p.time) < Ticks(q.time) < clock.relevance
    ensures var r := Store([p, q], Database({}, true), last, last, clock);
      r.ok && r.mostRecent == q.time && r.inserted == [p, q]
  {
    assert [p, q][..1] == [p] && [p][..0] == [] && [p, q][..2] == [p, q];
    assert Latest([p], last, last, clock) == p.time && Kept([p], last, clock) == [p];
    assert Reached([p], {}, last, clock) == 1;
  }

  /** The page is stored: both records are rows, and the watermark is the later one. */
  lemma PageIsStored(s: Session, c: Scenario, created: int, p: DataPoint, q: DataPoint)
    requires OnePage(created, c, p, q) && Late(created, c)
    requires s.open && s.state.WAITING_ARCHIVE_PAGE? && s.pending == Nothing && s.pagesLeft == 1
    requires s.beginning == c.last && s.mostRecent == c.last && s.newest == 0 && s.oldest == created
    ensures var t := OnSuccess(s, Answer(c));
      && t == s.(state := SENDING_ARCHIVE_PAGE_ANSWER, pending := Operation, pagesLeft := 0, mostRecent := q.time,
                 newest := q.time, oldest := q.time, trace := t.trace)
      && p in ReadAll(t.trace).rows
  {
    hide Store, ReadAll, LogInserted;
    StorePair(p, q, c.last, Answer(c).clock);
    TraceOfAccepted(s, Answer(c));
    InsertedRows(s.trace, [p, q]);
    AcceptedRows(LogInserted(s.trace, [p, q]), [p, q], [p, q], Answer(c).clock, true, q.time);
    assert p in [p, q];
    OnDownload(s, Answer(c));
    hide OnSuccess, ValidPage, LogAccepted;
  }

  /** The download is over: its job begins and ends at the later record. */
  lemma JobOfThePage(s: Session, c: Scenario, created: int, p: DataPoint, q: DataPoint)
    requires OnePage(created, c, p, q) && Day(created) < Day(c.later / SECOND)
    requires s.open && s.state.SENDING_ARCHIVE_PAGE_ANSWER? && s.pending == Nothing && s.pagesLeft == 0
    requires s.newest == q.time && s.oldest == q.time && s.hasPublisher && s.setTimeRequested
    requires p in ReadAll(s.trace).rows
    ensures var t := OnSuccess(s, Answer(c)).trace;
      && t.Then? && t.before.Then? && t.before.last == JobPublished(q.time, q.time)
      && p in ReadAll(t.before.before).rows
  {
    hide OnSuccess, ReadAll;
    OnDownload(s, Answer(c));
    ReadThen(s.trace, Completed);
    EarlierDay(q.time, created);
  }

  lemma EarlierDay(t: int, u: int)
    requires t <= u
    ensures Day(t) <= Day(u)
  {
  }

  lemma NextStep(s: Session, c: Scenario)
    requires s.open && s.pending == Operation && !ReadsAck(s.state)
    ensures Step(s, Done(Answer(c))) == OnSuccess(Idle(s), Answer(c))
  {
    hide OnSuccess;
  }

  lemma NextEvent(now: int, n: nat, c: Scenario)
    requires n != 24
    ensures Run(Started(now, true), Events(n + 1, c)) == Step(Run(Started(now, true), Events(n, c)), Done(Answer(c)))
  {
    hide Step, Started;
    var events := Events(n + 1, c);
    assert events[..n] == Events(n, c) && events[n] == EventAt(n, c);
  }

  lemma FirstPageIsAwaited(s: Session, c: Scenario)
    requires s.state.SENDING_ACK_ARCHIVE_DOWNLOAD? && s.pagesLeft != 0
    ensures OnSuccess(Idle(s), Answer(c)) == Idle(s).(state := WAITING_ARCHIVE_PAGE, pending := Operation)
  {
  }

  predicate Awaiting(s: Session, c: Scenario, created: int) {
    && s.open && s.state.SENDING_ACK_ARCHIVE_DOWNLOAD? && s.pagesLeft == 1 && s.pending == Operation
    && s.beginning == c.last && s.mostRecent == c.last && s.newest == 0 && s.oldest == created
    && s.hasPublisher && s.setTimeRequested && s.lastArchive == c.last
  }

  lemma LastStage(s: Session, c: Scenario, created: int)
    requires At(17, s, created, c) && c.pages == 1
    ensures Awaiting(s, c, created)
  {
    hide AnyWatermark;
  }

  /** The acknowledgement has been sent, the page comes, the answer has been sent. */
  lemma OnePageSteps(s: Session, c: Scenario, created: int, p: DataPoint, q: DataPoint)
    requires Awaiting(s, c, created) && Late(created, c) && OnePage(created, c, p, q)
    ensures var e := Done(Answer(c));
      var t := Step(Step(Step(s, e), e), e).trace;
      && t.Then? && t.before.Then? && t.before.last == JobPublished(q.time, q.time)
      && p in ReadAll(t.before.before).rows
  {
    hide Step, OnSuccess, ReadAll, OnePage, Answer;
    var waiting := Idle(s).(state := WAITING_ARCHIVE_PAGE, pending := Operation);
    FirstPageIsAwaited(s, c);
    NextStep(s, c);
    PageIsStored(Idle(waiting), c, created, p, q);
    NextStep(waiting, c);
    var answered := OnSuccess(Idle(waiting), Answer(c));
    JobOfThePage(Idle(answered), c, created, p, q);
    NextStep(answered, c);
  }

  /** The only announcement of this run and its only page, with the date asked for. */
  predicate StageOfPage(n: nat, s: Session, c: Scenario) {
    && (s.state.WAITING_ARCHIVE_NB_PAGES? <==> n == 16) && (s.state.WAITING_ARCHIVE_PAGE? <==> n == 18)
    && s.open && s.pending == Operation && (n >= 16 ==> s.lastArchive == c.last) && (n == 18 ==> s.pagesLeft == 1)
  }

  lemma EarlyStage(n: nat, s: Session, created: int, c: Scenario)
    requires n <= 17 && At(n, s, created, c)
    ensures StageOfPage(n, s, c)
  {
    hide AnyWatermark;
  }

  lemma LateStages(s: Session, created: int, c: Scenario, p: DataPoint, q: DataPoint)
    requires Awaiting(s, c, created) && Late(created, c) && OnePage(created, c, p, q)
    ensures var e := Done(Answer(c));
      StageOfPage(18, Step(s, e), c) && StageOfPage(19, Step(Step(s, e), e), c)
  {
    hide Step, OnSuccess, ReadAll, OnePage, Late, Answer;
    var waiting := Idle(s).(state := WAITING_ARCHIVE_PAGE, pending := Operation);
    FirstPageIsAwaited(s, c);
    NextStep(s, c);
    PageIsStored(Idle(waiting), c, created, p, q);
    NextStep(waiting, c);
  }

  lemma OnePageStages(now: int, n: nat, c: Scenario, p: DataPoint, q: DataPoint)
    requires n < 20 && Late(now / SECOND, c) && OnePage(now / SECOND, c, p, q)
    ensures StageOfPage(n, Run(Started(now, true), Events(n, c)), c)
  {
    assert c.pages == 1;
    hide Late, Run, Started, Events, Step, OnePage, Answer, At, Awaiting, StageOfPage;
    if n <= 17 {
      Walk(n, now, c);
      EarlyStage(n, Run(Started(now, true), Events(n, c)), now / SECOND, c);
    } else {
      var s := Run(Started(now, true), Events(17, c));
      Walk(17, now, c);
      LastStage(s, c, now / SECOND);
      LateStages(s, now / SECOND, c, p, q);
      NextEvent(now, 17, c);
      NextEvent(now, 18, c);
    }
  }

  /** The input on which a job does not cover what has been stored: for any last archive
      after the epoch, a download of one page of two records publishes the job that begins
      and ends at the later one. The earlier one is a row, outside its job. */
  lemma JobMissesARow(now: int, c: Scenario, p: DataPoint, q: DataPoint)
    requires Late(now / SECOND, c) && OnePage(now / SECOND, c, p, q)
    ensures var t := Run(Started(now, true), Events(20, c)).trace;
      && t.Then? && t.before.Then? && t.before.last == JobPublished(q.time, q.time)
      && p in ReadAll(t.before.before).rows && p.time < q.time
  {
    assert c.pages == 1 && p.time < q.time;
    hide At, Late, Run, Started, Events, Step, ReadAll, OnePage, Answer, Awaiting;
    var s := Run(Started(now, true), Events(17, c));
    Walk(17, now, c);
    LastStage(s, c, now / SECOND);
    OnePageSteps(s, c, now / SECOND, p, q);
    NextEvent(now, 17, c);
    NextEvent(now, 18, c);
    NextEvent(now, 19, c);
  }
}

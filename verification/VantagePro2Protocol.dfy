/** The archive-download protocol of the VantagePro2 connector, as a transition
    function over everything the event loop can deliver: the completion of the
    outstanding operation, its failure, the expiry of a timer, a stop request. */
module VantagePro2Protocol {
  import opened Common
  import Crc
  import opened Timestamps
  import opened VantagePro2ArchivePages

  datatype State =
    | STARTING
    | WAITING_NEXT_MEASURE_TICK
    | SENDING_WAKE_UP_STATION
    | WAITING_ECHO_STATION
    | SENDING_REQ_STATION
    | WAITING_ACK_STATION
    | WAITING_DATA_STATION
    | SENDING_REQ_MAIN_MODE
    | WAITING_ACK_MAIN_MODE
    | SENDING_REQ_TIMEZONE
    | WAITING_ACK_TIMEZONE
    | WAITING_DATA_TIMEZONE
    | SENDING_WAKE_UP_ARCHIVE
    | WAITING_ECHO_ARCHIVE
    | SENDING_REQ_ARCHIVE
    | WAITING_ACK_ARCHIVE
    | SENDING_ARCHIVE_PARAMS
    | WAITING_ACK_ARCHIVE_PARAMS
    | WAITING_ARCHIVE_NB_PAGES
    | SENDING_ACK_ARCHIVE_DOWNLOAD
    | SENDING_ABORT_ARCHIVE_DOWNLOAD
    | WAITING_ARCHIVE_PAGE
    | SENDING_ARCHIVE_PAGE_ANSWER
    | SENDING_WAKE_UP_SETTIME
    | WAITING_ECHO_SETTIME
    | SENDING_SETTIME
    | WAITING_ACK_SETTIME
    | SENDING_SETTIME_PARAMS
    | WAITING_ACK_TIME_SET
    | STOPPED

  /** What the connector is waiting for: nothing, an operation on the socket with its
      deadline, the next measurement, or the pause before a retry. */
  datatype Pending = Nothing | Operation | Tick | Flush(restart: State)

  datatype Message =
    | Echo | GetStation | MainMode | GetTimezone | GetArchive | SetTime
    | Ack | Nak | Abort | ArchiveParams(since: int) | SetTimeParams

  // ------------------------------------------------------------------------ the log

  datatype Action =
    | Sent(message: Message)
    | Prepared(beginning: int)
    | Announced(pages: nat)
    | Inserted(point: DataPoint)
    | Batched(points: seq<DataPoint>)
    | Accepted(page: seq<DataPoint>, clock: Clock)
    | Rejected
    | Watermark(time: int)
    | Completed
    | JobPublished(oldest: int, newest: int)
    | Closed

  /** Everything that left the connector since it was created, the latest action last. */
  datatype Trace = Start(created: int) | Then(before: Trace, last: Action)

  function LogInserted(t: Trace, points: seq<DataPoint>): Trace {
    if points == [] then t
    else Then(LogInserted(t, points[..|points| - 1]), Inserted(points[|points| - 1]))
  }

  // ---------------------------------------------------------------------- the session

  datatype Session = Session(
    state: State, pending: Pending, open: bool,
    timeouts: nat, errors: nat, ack: int, coordsValid: bool, polling: int, pagesLeft: int,
    beginning: int, mostRecent: int, lastArchive: int, oldest: int, newest: int,
    setTimeRequested: bool, setTimeArmed: bool, hasPublisher: bool,
    trace: Trace)

  /** Values of a 16-bit field. */
  type Word16 = n: int | 0 <= n < 0x1_0000

  datatype Station = Unknown | Known(polling: int, lastArchive: int)

  /** The answer to an archive request: a number of pages and whether its check is right. */
  datatype SizeBuffer = SizeBuffer(valid: bool, pages: Word16)

  /** Its six bytes: number of pages, index of the first record, check. */
  function ReadSize(bytes: seq<bv8>): SizeBuffer
    requires |bytes| == 6
  {
    SizeBuffer(Crc.Validates(bytes), WordAt(bytes, 0))
  }

  /** Everything the environment may answer when an operation completes; each state
      looks at its own part. `coordsValid` tells whether the check of the coordinates is
      right, and `station` is what the database knows about them. */
  datatype Input = Input(
    ack: int, coordsValid: bool, station: Station,
    size: SizeBuffer, page: PageBuffer, db: Database, clock: Clock, now: int)

  datatype Event =
    | Done(input: Input)
    | Failed
    | Deadline
    | FlushOver
    | SetTimeDue
    | StopRequest

  datatype Outcome = Success | TimedOut | Broken

  const ACK := 0x06
  const LINE_FEED := 0x0a
  const CARRIAGE_RETURN := 0x0d

  function NewSession(now: int, hasPublisher: bool): Session {
    var created := now / SECOND;
    Session(STARTING, Nothing, true, 0, 0, 0, false, 0, 0, 0, 0, 0, created, 0, true, false, hasPublisher,
            Trace.Start(created))
  }

  // ------------------------------------------------------------------- building blocks

  /** A message and the closing need an open socket; databases and jobs do not. */
  predicate NeedsSocket(a: Action) {
    a.Sent? || a.Closed?
  }

  /** A closed socket transmits nothing and is not closed again. */
  function Log(s: Session, a: Action): Session {
    if s.open || !NeedsSocket(a) then s.(trace := Then(s.trace, a)) else s
  }

  lemma LogFrame(s: Session, a: Action)
    ensures Log(s, a) == s.(trace := Log(s, a).trace)
    ensures s.open ==> Log(s, a).trace == Then(s.trace, a)
  {
  }

  function Goto(s: Session, state: State): Session {
    s.(state := state)
  }

  function Await(s: Session): Session {
    s.(pending := Operation)
  }

  function Send(s: Session, m: Message): Session {
    Await(Log(s, Sent(m)))
  }

  function Close(s: Session): Session {
    Log(s, Closed).(state := STOPPED, pending := Nothing, open := false, setTimeArmed := false)
  }

  function WaitForNextMeasure(s: Session): Session {
    s.(state := WAITING_NEXT_MEASURE_TICK, pending := Tick, timeouts := 0, errors := 0)
  }

  /** The request that restarts an exchange from a given state. */
  function RequestOf(restart: State): Message {
    match restart
    case SENDING_REQ_STATION => GetStation
    case SENDING_REQ_MAIN_MODE => MainMode
    case SENDING_REQ_TIMEZONE => GetTimezone
    case SENDING_REQ_ARCHIVE => GetArchive
    case SENDING_SETTIME => SetTime
    case _ => Echo
  }

  predicate IsRestart(st: State) {
    st.SENDING_WAKE_UP_STATION? || st.SENDING_REQ_STATION? || st.SENDING_REQ_MAIN_MODE?
    || st.SENDING_REQ_TIMEZONE? || st.SENDING_WAKE_UP_ARCHIVE? || st.SENDING_REQ_ARCHIVE?
    || st.SENDING_WAKE_UP_SETTIME? || st.SENDING_SETTIME?
  }

  function Restart(s: Session, restart: State): Session {
    Send(Goto(s, restart), RequestOf(restart))
  }

  /** Where an exchange resumes after a fault; STOPPED when it cannot be retried. */
  function RestartOf(st: State): State {
    match st
    case SENDING_WAKE_UP_STATION | WAITING_ECHO_STATION => SENDING_WAKE_UP_STATION
    case SENDING_REQ_STATION | WAITING_ACK_STATION | WAITING_DATA_STATION => SENDING_REQ_STATION
    case SENDING_REQ_MAIN_MODE => SENDING_REQ_MAIN_MODE
    case SENDING_REQ_TIMEZONE | WAITING_ACK_TIMEZONE | WAITING_DATA_TIMEZONE => SENDING_REQ_TIMEZONE
    case SENDING_WAKE_UP_ARCHIVE | WAITING_ECHO_ARCHIVE => SENDING_WAKE_UP_ARCHIVE
    case SENDING_REQ_ARCHIVE | WAITING_ACK_ARCHIVE => SENDING_REQ_ARCHIVE
    case SENDING_WAKE_UP_SETTIME | WAITING_ECHO_SETTIME => SENDING_WAKE_UP_SETTIME
    case SENDING_SETTIME | WAITING_ACK_SETTIME => SENDING_SETTIME
    case _ => STOPPED
  }

  /** A deadline missed in a state that can be retried. */
  function RetryAfterTimeout(s: Session, restart: State): Session {
    var t := s.(timeouts := s.timeouts + 1);
    if t.timeouts < 5 then t.(state := restart, pending := Flush(restart)) else Close(t)
  }

  /** A wrong answer in a state that can be retried: the state stays until the flush. */
  function RetryAfterError(s: Session, restart: State): Session {
    var t := s.(errors := s.errors + 1);
    if t.errors < 5 then t.(pending := Flush(restart)) else Close(t)
  }

  /** `handleGenericErrors`: nothing to do on success. */
  function HandleGenericErrors(s: Session, e: Outcome, restart: State): Session {
    match e
    case Success => s
    case TimedOut => RetryAfterTimeout(s, restart)
    case Broken => Close(s)
  }

  // -------------------------------------------------------------------- success events

  function StationIdentified(s: Session, input: Input): Session {
    var t := s.(coordsValid := input.coordsValid);
    if !input.coordsValid then RetryAfterError(t, SENDING_REQ_STATION)
    else match input.station
      case Unknown => Close(t)
      case Known(polling, lastArchive) =>
        Restart(t.(polling := polling, lastArchive := lastArchive), SENDING_REQ_MAIN_MODE)
  }

  function TimezoneReceived(s: Session, input: Input): Session {
    if !s.coordsValid then RetryAfterError(s, SENDING_REQ_TIMEZONE)
    else
      var t := Log(s.(beginning := s.lastArchive, mostRecent := s.lastArchive), Prepared(s.lastArchive));
      if input.now - Ticks(s.lastArchive) > Ticks(60 * s.polling) then Restart(t, SENDING_WAKE_UP_ARCHIVE)
      else Restart(t, SENDING_WAKE_UP_SETTIME)
  }

  function SizeReceived(s: Session, input: Input): Session {
    var t := s.(pagesLeft := input.size.pages);
    if input.size.valid then Send(Goto(Log(t, Announced(input.size.pages)), SENDING_ACK_ARCHIVE_DOWNLOAD), Ack)
    else Send(Goto(t, SENDING_ABORT_ARCHIVE_DOWNLOAD), Abort)
  }

  /** The watermark and the span of the download, after a page has been stored. */
  function PageStored(s: Session, page: seq<DataPoint>, clock: Clock): Session {
    var t := Log(s, Accepted(page, clock));
    var u := if t.mostRecent > t.newest then Log(t.(newest := t.mostRecent), Watermark(t.mostRecent)) else t;
    if u.mostRecent < u.oldest then u.(oldest := u.mostRecent) else u
  }

  function LogStore(s: Session, points: seq<DataPoint>, ok: bool): Session {
    var t := s.(trace := LogInserted(s.trace, points));
    if ok then Log(t, Batched(points)) else t
  }

  function ValidPage(s: Session, input: Input): Session {
    var r := Store(input.page.points, input.db, s.beginning, s.mostRecent, input.clock);
    var t := LogStore(s.(mostRecent := r.mostRecent), r.inserted, r.ok);
    var u := if r.ok then PageStored(t, input.page.points, input.clock) else Close(t);
    Send(Goto(u.(pagesLeft := u.pagesLeft - 1), SENDING_ARCHIVE_PAGE_ANSWER), Ack)
  }

  function InvalidPage(s: Session): Session {
    var t := Log(s.(errors := s.errors + 1, state := SENDING_ARCHIVE_PAGE_ANSWER), Rejected);
    Send(if t.errors > 100 then Close(t) else t, Nak)
  }

  function DownloadOver(s: Session, now: int): Session {
    var t := Log(s.(lastArchive := s.newest), Completed);
    var u := if t.hasPublisher && Day(t.oldest) < Day(now / SECOND)
      then Log(t, JobPublished(t.oldest, t.newest)) else t;
    if u.setTimeRequested then Restart(u, SENDING_WAKE_UP_SETTIME) else WaitForNextMeasure(u)
  }

  function PageAnswered(s: Session, now: int): Session {
    if s.pagesLeft != 0 then Await(Goto(s, WAITING_ARCHIVE_PAGE)) else DownloadOver(s, now)
  }

  function TimeSet(s: Session): Session {
    WaitForNextMeasure(s.(setTimeRequested := false, setTimeArmed := true))
  }

  function OnSuccess(s: Session, input: Input): Session {
    match s.state
    case SENDING_WAKE_UP_STATION => Await(Goto(s, WAITING_ECHO_STATION))
    case WAITING_ECHO_STATION => Restart(s, SENDING_REQ_STATION)
    case SENDING_REQ_STATION => Await(Goto(s, WAITING_ACK_STATION))
    case WAITING_ACK_STATION =>
      if s.ack != ACK then RetryAfterError(s, SENDING_REQ_STATION) else Await(Goto(s, WAITING_DATA_STATION))
    case WAITING_DATA_STATION => StationIdentified(s, input)
    case SENDING_REQ_MAIN_MODE => Await(Goto(s, WAITING_ACK_MAIN_MODE))
    case WAITING_ACK_MAIN_MODE => Restart(s, SENDING_REQ_TIMEZONE)
    case SENDING_REQ_TIMEZONE => Await(Goto(s, WAITING_ACK_TIMEZONE))
    case WAITING_ACK_TIMEZONE =>
      if s.ack != ACK then RetryAfterError(s, SENDING_REQ_TIMEZONE) else Await(Goto(s, WAITING_DATA_TIMEZONE))
    case WAITING_DATA_TIMEZONE => TimezoneReceived(s, input)
    case SENDING_WAKE_UP_ARCHIVE => Await(Goto(s, WAITING_ECHO_ARCHIVE))
    case WAITING_ECHO_ARCHIVE => Restart(s, SENDING_REQ_ARCHIVE)
    case SENDING_REQ_ARCHIVE => Await(Goto(s, WAITING_ACK_ARCHIVE))
    case WAITING_ACK_ARCHIVE =>
      if s.ack != ACK then RetryAfterError(s, SENDING_REQ_ARCHIVE)
      else Send(Goto(s, SENDING_ARCHIVE_PARAMS), ArchiveParams(s.lastArchive))
    case SENDING_ARCHIVE_PARAMS => Await(Goto(s, WAITING_ACK_ARCHIVE_PARAMS))
    case WAITING_ACK_ARCHIVE_PARAMS =>
      if s.ack != ACK then Close(s) else Await(Goto(s, WAITING_ARCHIVE_NB_PAGES))
    case WAITING_ARCHIVE_NB_PAGES => SizeReceived(s, input)
    case SENDING_ABORT_ARCHIVE_DOWNLOAD => WaitForNextMeasure(s)
    case WAITING_ARCHIVE_PAGE => if input.page.valid then ValidPage(s, input) else InvalidPage(s)
    case SENDING_ACK_ARCHIVE_DOWNLOAD | SENDING_ARCHIVE_PAGE_ANSWER => PageAnswered(s, input.now)
    case SENDING_WAKE_UP_SETTIME => Await(Goto(s, WAITING_ECHO_SETTIME))
    case WAITING_ECHO_SETTIME => Restart(s, SENDING_SETTIME)
    case SENDING_SETTIME => Await(Goto(s, WAITING_ACK_SETTIME))
    case WAITING_ACK_SETTIME =>
      if s.ack != ACK then RetryAfterError(s, SENDING_SETTIME)
      else Send(Goto(s, SENDING_SETTIME_PARAMS), SetTimeParams)
    case SENDING_SETTIME_PARAMS => Await(Goto(s, WAITING_ACK_TIME_SET))
    case WAITING_ACK_TIME_SET => TimeSet(s)
    case WAITING_NEXT_MEASURE_TICK => WaitForNextMeasure(s)
    case STARTING => Restart(s, SENDING_WAKE_UP_STATION)
    case STOPPED => s
  }

  /** Success in the exchanges that have no data of their own. */
  lemma OnRequest(s: Session, input: Input)
    ensures s.state.SENDING_WAKE_UP_ARCHIVE? ==> OnSuccess(s, input) == Await(Goto(s, WAITING_ECHO_ARCHIVE))
    ensures s.state.WAITING_ECHO_ARCHIVE? ==> OnSuccess(s, input) == Send(Goto(s, SENDING_REQ_ARCHIVE), GetArchive)
    ensures s.state.SENDING_REQ_ARCHIVE? ==> OnSuccess(s, input) == Await(Goto(s, WAITING_ACK_ARCHIVE))
    ensures s.state.WAITING_ACK_ARCHIVE? && s.ack != ACK ==>
      OnSuccess(s, input) == RetryAfterError(s, SENDING_REQ_ARCHIVE)
    ensures s.state.WAITING_ACK_ARCHIVE? && s.ack == ACK ==>
      OnSuccess(s, input) == Send(Goto(s, SENDING_ARCHIVE_PARAMS), ArchiveParams(s.lastArchive))
  {
    hide Send, Goto, Await, RetryAfterError;
  }

  lemma OnSetTime(s: Session, input: Input)
    ensures s.state.SENDING_WAKE_UP_SETTIME? ==> OnSuccess(s, input) == Await(Goto(s, WAITING_ECHO_SETTIME))
    ensures s.state.WAITING_ECHO_SETTIME? ==> OnSuccess(s, input) == Send(Goto(s, SENDING_SETTIME), SetTime)
    ensures s.state.SENDING_SETTIME? ==> OnSuccess(s, input) == Await(Goto(s, WAITING_ACK_SETTIME))
    ensures s.state.WAITING_ACK_SETTIME? && s.ack != ACK ==> OnSuccess(s, input) == RetryAfterError(s, SENDING_SETTIME)
    ensures s.state.WAITING_ACK_SETTIME? && s.ack == ACK ==>
      OnSuccess(s, input) == Send(Goto(s, SENDING_SETTIME_PARAMS), SetTimeParams)
  {
    hide Send, Goto, Await, RetryAfterError;
  }

  lemma OnIdentification(s: Session, input: Input)
    ensures s.state.SENDING_WAKE_UP_STATION? ==> OnSuccess(s, input) == Await(Goto(s, WAITING_ECHO_STATION))
    ensures s.state.WAITING_ECHO_STATION? ==> OnSuccess(s, input) == Send(Goto(s, SENDING_REQ_STATION), GetStation)
    ensures s.state.SENDING_REQ_STATION? ==> OnSuccess(s, input) == Await(Goto(s, WAITING_ACK_STATION))
    ensures s.state.WAITING_ACK_STATION? && s.ack != ACK ==>
      OnSuccess(s, input) == RetryAfterError(s, SENDING_REQ_STATION)
    ensures s.state.WAITING_ACK_STATION? && s.ack == ACK ==>
      OnSuccess(s, input) == Await(Goto(s, WAITING_DATA_STATION))
    ensures s.state.WAITING_DATA_STATION? ==> OnSuccess(s, input) == StationIdentified(s, input)
  {
    hide Send, Goto, Await, RetryAfterError, StationIdentified;
  }

  lemma OnConfiguration(s: Session, input: Input)
    ensures s.state.SENDING_REQ_MAIN_MODE? ==> OnSuccess(s, input) == Await(Goto(s, WAITING_ACK_MAIN_MODE))
    ensures s.state.WAITING_ACK_MAIN_MODE? ==> OnSuccess(s, input) == Send(Goto(s, SENDING_REQ_TIMEZONE), GetTimezone)
    ensures s.state.SENDING_REQ_TIMEZONE? ==> OnSuccess(s, input) == Await(Goto(s, WAITING_ACK_TIMEZONE))
    ensures s.state.WAITING_ACK_TIMEZONE? && s.ack != ACK ==>
      OnSuccess(s, input) == RetryAfterError(s, SENDING_REQ_TIMEZONE)
    ensures s.state.WAITING_ACK_TIMEZONE? && s.ack == ACK ==>
      OnSuccess(s, input) == Await(Goto(s, WAITING_DATA_TIMEZONE))
    ensures s.state.WAITING_DATA_TIMEZONE? ==> OnSuccess(s, input) == TimezoneReceived(s, input)
  {
    hide Send, Goto, Await, RetryAfterError, TimezoneReceived;
  }

  lemma OnDownload(s: Session, input: Input)
    ensures s.state.SENDING_ARCHIVE_PARAMS? ==> OnSuccess(s, input) == Await(Goto(s, WAITING_ACK_ARCHIVE_PARAMS))
    ensures s.state.WAITING_ACK_ARCHIVE_PARAMS? && s.ack != ACK ==> OnSuccess(s, input) == Close(s)
    ensures s.state.WAITING_ACK_ARCHIVE_PARAMS? && s.ack == ACK ==>
      OnSuccess(s, input) == Await(Goto(s, WAITING_ARCHIVE_NB_PAGES))
    ensures s.state.WAITING_ARCHIVE_NB_PAGES? ==> OnSuccess(s, input) == SizeReceived(s, input)
    ensures s.state.WAITING_ARCHIVE_PAGE? && input.page.valid ==> OnSuccess(s, input) == ValidPage(s, input)
    ensures s.state.WAITING_ARCHIVE_PAGE? && !input.page.valid ==> OnSuccess(s, input) == InvalidPage(s)
    ensures (s.state.SENDING_ACK_ARCHIVE_DOWNLOAD? || s.state.SENDING_ARCHIVE_PAGE_ANSWER?) && s.pagesLeft != 0 ==>
      OnSuccess(s, input) == Await(Goto(s, WAITING_ARCHIVE_PAGE))
    ensures (s.state.SENDING_ACK_ARCHIVE_DOWNLOAD? || s.state.SENDING_ARCHIVE_PAGE_ANSWER?) && s.pagesLeft == 0 ==>
      OnSuccess(s, input) == DownloadOver(s, input.now)
  {
    hide Goto, Await, Close, SizeReceived, ValidPage, InvalidPage, DownloadOver;
  }

  lemma OnEnd(s: Session, input: Input)
    ensures s.state.SENDING_SETTIME_PARAMS? ==> OnSuccess(s, input) == Await(Goto(s, WAITING_ACK_TIME_SET))
    ensures s.state.WAITING_ACK_TIME_SET? ==> OnSuccess(s, input) == TimeSet(s)
    ensures s.state.SENDING_ABORT_ARCHIVE_DOWNLOAD? || s.state.WAITING_NEXT_MEASURE_TICK? ==>
      OnSuccess(s, input) == WaitForNextMeasure(s)
  {
    hide Goto, Await, WaitForNextMeasure, TimeSet;
  }

  // ---------------------------------------------------------------------- fault events

  function OnFault(s: Session, outcome: Outcome): Session {
    match s.state
    case STARTING => Restart(s, SENDING_WAKE_UP_STATION)
    case STOPPED => s
    case WAITING_NEXT_MEASURE_TICK =>
      if outcome == TimedOut then Restart(s, SENDING_WAKE_UP_ARCHIVE) else WaitForNextMeasure(s)
    case WAITING_ACK_TIME_SET => TimeSet(s)
    case WAITING_ACK_MAIN_MODE => Close(HandleGenericErrors(s, outcome, SENDING_REQ_MAIN_MODE))
    case _ =>
      if outcome == TimedOut && RestartOf(s.state) != STOPPED then RetryAfterTimeout(s, RestartOf(s.state))
      else Close(s)
  }

  /** A fault in the middle of an exchange, whether it can be restarted or not. */
  lemma OnExchangeFault(s: Session, outcome: Outcome)
    requires !s.state.STARTING? && !s.state.STOPPED? && !s.state.WAITING_NEXT_MEASURE_TICK?
    requires !s.state.WAITING_ACK_TIME_SET? && !s.state.WAITING_ACK_MAIN_MODE?
    ensures OnFault(s, outcome) ==
      if outcome == TimedOut && RestartOf(s.state) != STOPPED then RetryAfterTimeout(s, RestartOf(s.state))
      else Close(s)
  {
    hide RestartOf, RetryAfterTimeout, Close;
  }

  lemma RestartableIsExchange(st: State)
    requires RestartOf(st) != STOPPED
    ensures !st.STARTING? && !st.STOPPED? && !st.WAITING_NEXT_MEASURE_TICK?
    ensures !st.WAITING_ACK_TIME_SET? && !st.WAITING_ACK_MAIN_MODE?
    ensures IsRestart(RestartOf(st))
  {
  }

  function HandleEvent(s: Session, outcome: Outcome, input: Input): Session {
    if outcome == Success then OnSuccess(s, input) else OnFault(s, outcome)
  }

  // ------------------------------------------------------------------- the event loop

  predicate ReadsAck(st: State) {
    st.WAITING_ACK_STATION? || st.WAITING_ACK_TIMEZONE? || st.WAITING_ACK_ARCHIVE?
    || st.WAITING_ACK_ARCHIVE_PARAMS? || st.WAITING_ACK_SETTIME? || st.WAITING_ACK_TIME_SET?
  }

  predicate IsLineEnd(ack: int) {
    ack == LINE_FEED || ack == CARRIAGE_RETURN
  }

  /** Which events can reach a session: nothing completes with success on a closed
      socket, and only what is pending can complete, fail or expire. */
  predicate Enabled(s: Session, e: Event) {
    match e
    case Done(_) => s.pending.Operation? && s.open
    case Failed => s.pending.Operation?
    case Deadline => s.pending.Operation? || s.pending.Tick?
    case FlushOver => s.pending.Flush?
    case SetTimeDue => s.setTimeArmed
    case StopRequest => true
  }

  /** `recvAck` reads again, without an event, while the last byte read is a line end. */
  predicate Swallowed(s: Session, e: Event) {
    match e
    case Done(input) => ReadsAck(s.state) && IsLineEnd(input.ack)
    case Failed => ReadsAck(s.state) && IsLineEnd(s.ack)
    case _ => false
  }

  const NO_INPUT :=
    Input(0, false, Unknown, SizeBuffer(false, 0), PageBuffer(false, []), Database({}, false), Clock(0, 0), 0)

  function Step(s: Session, e: Event): Session {
    if !Enabled(s, e) then s
    else
      var idle := s.(pending := Nothing);
      match e
      case Done(input) =>
        var t := if ReadsAck(s.state) then idle.(ack := input.ack) else idle;
        if Swallowed(s, e) then Await(t) else HandleEvent(t, Success, input)
      case Failed => if Swallowed(s, e) then s else HandleEvent(idle, Broken, NO_INPUT)
      case Deadline => HandleEvent(idle.(timeouts := s.timeouts + 1), TimedOut, NO_INPUT)
      case FlushOver => Restart(idle, s.pending.restart)
      case SetTimeDue => s.(setTimeRequested := true, setTimeArmed := false)
      case StopRequest => Close(s)
  }

  function Run(s: Session, events: seq<Event>): Session {
    if events == [] then s else Step(Run(s, events[..|events| - 1]), events[|events| - 1])
  }

  /** A session as `start()` leaves it. */
  function Started(now: int, hasPublisher: bool): Session {
    HandleEvent(NewSession(now, hasPublisher), Success, NO_INPUT)
  }
}

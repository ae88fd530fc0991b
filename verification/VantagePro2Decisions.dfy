/** What the connector decides, and from which values: the archive or the clock after the
    configuration, a job or none after a download. */
module VantagePro2Decisions {
  import opened Common
  import opened Timestamps
  import opened VantagePro2ArchivePages
  import opened VantagePro2Protocol
  import opened VantagePro2Runs

  // -------------------------------------------------------------------- what is remembered

  /** Between the identification of the station and the preparation of the page store. */
  predicate Configuring(st: State) {
    st.SENDING_REQ_MAIN_MODE? || st.WAITING_ACK_MAIN_MODE? || st.SENDING_REQ_TIMEZONE?
    || st.WAITING_ACK_TIMEZONE? || st.WAITING_DATA_TIMEZONE?
  }

  /** The polling period and the last archive stay from the identification of the station
      until the page store is prepared, and a station is not identified again. */
  predicate Stays(s: Session, t: Session) {
    s.open && t.open ==>
      && (Prepped(s.state) ==> Prepped(t.state))
      && (Configuring(s.state) ==>
          Prepped(t.state) || (Configuring(t.state) && t.polling == s.polling && t.lastArchive == s.lastArchive))
  }

  lemma LogStays()
    ensures forall s, a :: Log(s, a) == s.(trace := Log(s, a).trace)
  {
  }

  lemma ConfigurationStays(s: Session, input: Input)
    requires Configuring(s.state)
    ensures Stays(s, OnSuccess(s, input))
  {
    hide Log, OnSuccess;
    LogStays();
    OnConfiguration(s, input);
  }

  lemma RequestStays(s: Session, input: Input)
    requires s.state.SENDING_WAKE_UP_ARCHIVE? || s.state.WAITING_ECHO_ARCHIVE? || s.state.SENDING_REQ_ARCHIVE?
          || s.state.WAITING_ACK_ARCHIVE?
    ensures Stays(s, OnSuccess(s, input))
  {
    hide Log, OnSuccess;
    LogStays();
    OnRequest(s, input);
  }

  lemma PageStays(s: Session, input: Input)
    requires s.state.WAITING_ARCHIVE_PAGE?
    ensures Stays(s, ValidPage(s, input)) && Stays(s, InvalidPage(s))
  {
    hide Log, Store, LogInserted;
    LogStays();
  }

  lemma OverStays(s: Session, now: int)
    requires Downloading(s.state)
    ensures Stays(s, DownloadOver(s, now))
  {
    hide Log, Day;
    LogStays();
  }

  lemma DownloadStays(s: Session, input: Input)
    requires s.state.SENDING_ARCHIVE_PARAMS? || s.state.WAITING_ACK_ARCHIVE_PARAMS?
          || s.state.WAITING_ARCHIVE_NB_PAGES? || Downloading(s.state)
    ensures Stays(s, OnSuccess(s, input))
  {
    hide Log, OnSuccess, ValidPage, InvalidPage, DownloadOver;
    LogStays();
    OnDownload(s, input);
    if s.state.WAITING_ARCHIVE_PAGE? {
      PageStays(s, input);
    } else if Downloading(s.state) {
      OverStays(s, input.now);
    }
  }

  lemma SetTimeStays(s: Session, input: Input)
    requires s.state.SENDING_WAKE_UP_SETTIME? || s.state.WAITING_ECHO_SETTIME?
          || s.state.SENDING_SETTIME? || s.state.WAITING_ACK_SETTIME?
    ensures Stays(s, OnSuccess(s, input))
  {
    hide Log, OnSuccess;
    LogStays();
    OnSetTime(s, input);
  }

  lemma EndStays(s: Session, input: Input)
    requires s.state.SENDING_SETTIME_PARAMS? || s.state.SENDING_ABORT_ARCHIVE_DOWNLOAD?
          || s.state.WAITING_NEXT_MEASURE_TICK? || s.state.WAITING_ACK_TIME_SET?
    ensures Stays(s, OnSuccess(s, input))
  {
    hide Log, OnSuccess;
    LogStays();
    OnEnd(s, input);
  }

  lemma SuccessStays(s: Session, input: Input)
    requires Configuring(s.state) || Prepped(s.state)
    ensures Stays(s, OnSuccess(s, input))
  {
    hide Stays, OnSuccess;
    match s.state
    case SENDING_WAKE_UP_ARCHIVE | WAITING_ECHO_ARCHIVE | SENDING_REQ_ARCHIVE | WAITING_ACK_ARCHIVE =>
      RequestStays(s, input);
    case SENDING_ARCHIVE_PARAMS | WAITING_ACK_ARCHIVE_PARAMS | WAITING_ARCHIVE_NB_PAGES
       | WAITING_ARCHIVE_PAGE | SENDING_ACK_ARCHIVE_DOWNLOAD | SENDING_ARCHIVE_PAGE_ANSWER =>
      DownloadStays(s, input);
    case SENDING_WAKE_UP_SETTIME | WAITING_ECHO_SETTIME | SENDING_SETTIME | WAITING_ACK_SETTIME =>
      SetTimeStays(s, input);
    case SENDING_SETTIME_PARAMS | SENDING_ABORT_ARCHIVE_DOWNLOAD | WAITING_NEXT_MEASURE_TICK | WAITING_ACK_TIME_SET =>
      EndStays(s, input);
    case _ => ConfigurationStays(s, input);
  }

  lemma ConfiguringRestarts(st: State)
    requires Configuring(st) && RestartOf(st) != STOPPED
    ensures Configuring(RestartOf(st))
  {
  }

  lemma RestartStays(s: Session, restart: State, pending: Pending, timeouts: nat)
    requires IsRestart(restart) && RestartOf(s.state) == restart
    ensures Stays(s, s.(state := restart, pending := pending, timeouts := timeouts))
    ensures Stays(s, Restart(s, restart))
  {
    hide Log, RestartOf, IsRestart, Prepped, Configuring;
    LogFrame(Goto(s, restart), Sent(RequestOf(restart)));
    hide RequestOf;
    RestartFacts(s.state, restart);
    if Configuring(s.state) {
      ConfiguringRestarts(s.state);
    }
  }

  lemma CloseStays(s: Session)
    ensures !Close(s).open && Stays(s, Close(s))
  {
    hide Log;
    LogStays();
  }

  lemma FaultStays(s: Session, outcome: Outcome)
    requires !s.state.STARTING? && outcome != Success
    ensures Stays(s, OnFault(s, outcome))
  {
    hide OnFault, RestartOf, Close, IsRestart, Log;
    LogStays();
    CloseStays(s);
    CloseStays(s.(timeouts := s.timeouts + 1));
    if s.state.STOPPED? || s.state.WAITING_ACK_MAIN_MODE? || s.state.WAITING_ACK_TIME_SET?
      || s.state.WAITING_NEXT_MEASURE_TICK? {
      IdleFaultStays(s, outcome);
    } else {
      OnExchangeFault(s, outcome);
      if RestartOf(s.state) != STOPPED {
        RestartableIsExchange(s.state);
        RestartStays(s, RestartOf(s.state), Flush(RestartOf(s.state)), s.timeouts + 1);
      }
    }
  }

  lemma IdleFaultStays(s: Session, outcome: Outcome)
    requires s.state.STOPPED? || s.state.WAITING_ACK_MAIN_MODE? || s.state.WAITING_ACK_TIME_SET?
          || s.state.WAITING_NEXT_MEASURE_TICK?
    ensures Stays(s, OnFault(s, outcome))
  {
    hide Log;
    LogStays();
  }

  lemma EventStays(s: Session, e: Event)
    requires Inv(s) && (Configuring(s.state) || Prepped(s.state))
    ensures Stays(s, Step(s, e))
  {
    hide Inv, OnSuccess, OnFault, RestartOf, IsRestart, Close, Restart, Prepped, Configuring;
    Known(s);
    CloseStays(s);
    match e
    case Done(input) =>
      SuccessStays(s.(pending := Nothing, ack := if ReadsAck(s.state) then input.ack else s.ack), input);
    case Failed => FaultStays(s.(pending := Nothing), Broken);
    case Deadline => FaultStays(s.(pending := Nothing, timeouts := s.timeouts + 1), TimedOut);
    case FlushOver =>
      if s.pending.Flush? {
        RestartStays(s.(pending := Nothing), s.pending.restart, Nothing, s.timeouts);
      }
    case _ =>
  }

  lemma Known(s: Session)
    requires Inv(s)
    ensures !s.state.STARTING?
    ensures s.pending.Flush? ==> IsRestart(s.pending.restart) && RestartOf(s.state) == s.pending.restart
  {
    hide ReadAll;
  }
  // --------------------------------------------------------------------- one event at a time

  /** A station whose coordinates are right is taken in if the database knows it, and the
      session ends otherwise. Coordinates damaged on the way are asked for again, unless it
      is for the fifth time. */
  lemma StationDecides(s: Session, input: Input)
    requires s.open && s.pending.Operation? && s.state.WAITING_DATA_STATION?
    ensures var t := Step(s, Done(input));
      && (t.open <==> if input.coordsValid then input.station.Known? else s.errors < 4)
      && t.trace == (if !t.open then Then(s.trace, Closed)
                     else if input.coordsValid then Then(s.trace, Sent(MainMode)) else s.trace)
      && (t.open ==>
            if input.coordsValid
            then t.state.SENDING_REQ_MAIN_MODE? && Station.Known(t.polling, t.lastArchive) == input.station
            else t.pending == Flush(SENDING_REQ_STATION) && t.errors == s.errors + 1)
  {
    hide OnSuccess, OnFault;
    OnIdentification(s.(pending := Nothing), input);
  }

  /** While an acknowledgement is awaited, line ends are read and forgotten. */
  lemma LineEndIsSkipped(s: Session, input: Input)
    requires s.open && s.pending.Operation? && (input.ack == 0x0a || input.ack == 0x0d)
    requires s.state.WAITING_ACK_STATION? || s.state.WAITING_ACK_TIMEZONE? || s.state.WAITING_ACK_ARCHIVE?
          || s.state.WAITING_ACK_ARCHIVE_PARAMS? || s.state.WAITING_ACK_SETTIME? || s.state.WAITING_ACK_TIME_SET?
    ensures Step(s, Done(input)) == s.(ack := input.ack)
  {
    hide OnSuccess, OnFault;
  }

  /** The clock counts as set whatever the station answers, even nothing; only an error just
      after a line end does not. The timer of the next time is armed, and when it is due the
      clock is to be set after the next download. */
  lemma ClockIsSet(s: Session, e: Event)
    requires s.open && s.pending.Operation? && s.state.WAITING_ACK_TIME_SET?
    requires e.Deadline? || (e.Failed? && s.ack != 0x0a && s.ack != 0x0d)
          || (e.Done? && e.input.ack != 0x0a && e.input.ack != 0x0d)
    ensures var t := Step(s, e);
      && t == s.(state := WAITING_NEXT_MEASURE_TICK, pending := Tick, timeouts := 0, errors := 0, ack := t.ack,
                 setTimeRequested := false, setTimeArmed := true)
      && Step(t, SetTimeDue) == t.(setTimeRequested := true, setTimeArmed := false)
  {
    hide OnSuccess;
    if e.Done? {
      OnEnd(s.(pending := Nothing, ack := e.input.ack), e.input);
    }
  }

  /** Each measurement begins by waking the station up for its archive. */
  lemma TickAsksForTheArchive(s: Session)
    requires s.open && s.pending.Tick? && s.state.WAITING_NEXT_MEASURE_TICK?
    ensures Step(s, Deadline) == s.(state := SENDING_WAKE_UP_ARCHIVE, pending := Operation, timeouts := s.timeouts + 1,
                                    trace := Then(s.trace, Sent(Echo)))
  {
  }

  /** A deadline missed ends the session in the middle of a download, of the setting of the
      clock, or of the answer to the main mode: these are not started again. */
  lemma TimeoutEnds(s: Session)
    requires s.open && s.pending.Operation?
    requires s.state.WAITING_ACK_MAIN_MODE? || s.state.SENDING_ARCHIVE_PARAMS? || s.state.WAITING_ACK_ARCHIVE_PARAMS?
          || s.state.WAITING_ARCHIVE_NB_PAGES? || s.state.SENDING_ABORT_ARCHIVE_DOWNLOAD? || Downloading(s.state)
          || s.state.SENDING_SETTIME_PARAMS?
    ensures var t := Step(s, Deadline);
      && t.state.STOPPED? && t.pending == Nothing && !t.open && !t.setTimeArmed && t.trace == Then(s.trace, Closed)
  {
    hide OnFault, RestartOf;
    DeadlineStep(s);
    var t := s.(pending := Nothing, timeouts := s.timeouts + 1);
    if s.state.WAITING_ACK_MAIN_MODE? {
      MainModeEnds(t);
    } else {
      OnExchangeFault(t, TimedOut);
      NotRestarted(s.state);
    }
  }

  lemma MainModeEnds(s: Session)
    requires s.open && s.state.WAITING_ACK_MAIN_MODE?
    ensures var t := OnFault(s, TimedOut);
      && t.state.STOPPED? && t.pending == Nothing && !t.open && !t.setTimeArmed && t.trace == Then(s.trace, Closed)
  {
  }

  lemma NotRestarted(st: State)
    requires st.SENDING_ARCHIVE_PARAMS? || st.WAITING_ACK_ARCHIVE_PARAMS? || st.WAITING_ARCHIVE_NB_PAGES?
          || st.SENDING_ABORT_ARCHIVE_DOWNLOAD? || Downloading(st) || st.SENDING_SETTIME_PARAMS?
    ensures RestartOf(st) == STOPPED
  {
  }

  /** After the pause that follows a fault, the exchange starts again with its request. */
  lemma FlushAsksAgain(s: Session)
    requires s.open && s.pending.Flush?
    ensures var restart := s.pending.restart;
      Step(s, FlushOver) == s.(state := restart, pending := Operation, trace := Then(s.trace, Sent(RequestOf(restart))))
  {
    hide RequestOf;
  }

  /** Asked to stop, a connector closes its socket, once, whatever it is doing. */
  lemma StopEnds(s: Session)
    ensures var t := Step(s, StopRequest);
      && t == s.(state := STOPPED, pending := Nothing, open := false, setTimeArmed := false, trace := t.trace)
      && t.trace == if s.open then Then(s.trace, Closed) else s.trace
  {
  }

  // ---------------------------------------------------------------- the archive or the clock

  /** The coordinates are right and the database knows the station. */
  predicate Identifies(s: Session, e: Event, polling: int, last: int) {
    && s.state.WAITING_DATA_STATION? && Enabled(s, e)
    && e.Done? && e.input.coordsValid && e.input.station == Station.Known(polling, last)
  }

  predicate Remembers(s: Session, polling: int, last: int) {
    s.open ==> Prepped(s.state) || (Configuring(s.state) && s.polling == polling && s.lastArchive == last)
  }

  lemma IdentifiedRemembers(s: Session, e: Event, polling: int, last: int)
    requires Identifies(s, e, polling, last)
    ensures Remembers(Step(s, e), polling, last)
  {
    hide Log, OnSuccess, OnFault;
    LogStays();
    OnIdentification(s.(pending := Nothing), e.input);
  }

  lemma {:induction false} StationIsRemembered(now: int, hasPublisher: bool, events: seq<Event>, i: nat, polling: int,
                                               last: int)
    requires i < |events| && Identifies(Run(Started(now, hasPublisher), events[..i]), events[i], polling, last)
    ensures Remembers(Run(Started(now, hasPublisher), events), polling, last)
  {
    hide Inv, Step, Started, Identifies, Configuring, Prepped;
    var n := |events| - 1;
    var s := Run(Started(now, hasPublisher), events[..n]);
    StartedInv(now, hasPublisher);
    RunKeeps(Started(now, hasPublisher), events[..n]);
    if i == n {
      IdentifiedRemembers(s, events[n], polling, last);
    } else {
      assert events[..n][..i] == events[..i];
      StationIsRemembered(now, hasPublisher, events[..n], i, polling, last);
      if s.open {
        EventStays(s, events[n]);
      } else {
        ClosedStep(s, events[n]);
      }
    }
  }

  /** In every run where the database has answered a polling period in minutes and a last
      archive, whatever has happened in between: when the timezone arrives, the page store
      is prepared with that archive and the station woken up, for its archive if more than
      the polling period has passed since, to the nanosecond, and for its clock otherwise. */
  lemma ArchiveIffLate(now: int, hasPublisher: bool, events: seq<Event>, i: nat, polling: int, last: int, input: Input)
    requires i < |events| && Identifies(Run(Started(now, hasPublisher), events[..i]), events[i], polling, last)
    requires var s := Run(Started(now, hasPublisher), events);
      s.state.WAITING_DATA_TIMEZONE? && Enabled(s, Done(input))
    ensures var s := Run(Started(now, hasPublisher), events);
      var t, late := Step(s, Done(input)), input.now > (last + 60 * polling) * 1_000_000_000;
      && t.state == (if late then SENDING_WAKE_UP_ARCHIVE else SENDING_WAKE_UP_SETTIME) && t.pending == Operation
      && t.trace == Then(Then(s.trace, Prepared(last)), Sent(Echo))
  {
    var s := Run(Started(now, hasPublisher), events);
    StationIsRemembered(now, hasPublisher, events, i, polling, last);
    StartedInv(now, hasPublisher);
    RunKeeps(Started(now, hasPublisher), events);
    hide Inv, Run, Started, Step, Identifies, TimezoneReceived, Prepped;
    IdentifiedIsValid(s);
    TimezoneStep(s, input);
    TimezoneDecides(s.(pending := Nothing), input);
    NotPrepped();
  }

  lemma TimezoneStep(s: Session, input: Input)
    requires s.state.WAITING_DATA_TIMEZONE? && Enabled(s, Done(input))
    ensures Step(s, Done(input)) == TimezoneReceived(s.(pending := Nothing), input)
  {
    hide OnSuccess, OnFault, TimezoneReceived;
    OnConfiguration(s.(pending := Nothing), input);
  }

  lemma NotPrepped()
    ensures !Prepped(WAITING_DATA_TIMEZONE)
  {
  }

  lemma TimezoneDecides(s: Session, input: Input)
    requires s.open && s.coordsValid
    ensures var t, late := TimezoneReceived(s, input), input.now > (s.lastArchive + 60 * s.polling) * 1_000_000_000;
      && t.state == (if late then SENDING_WAKE_UP_ARCHIVE else SENDING_WAKE_UP_SETTIME) && t.pending == Operation
      && t.trace == Then(Then(s.trace, Prepared(s.lastArchive)), Sent(Echo))
  {
  }

  // ------------------------------------------------------------------------- a job or none

  /** In every run: when the last page announced has been answered, the download is over,
      the last archive becomes the newest date, and a job follows if and only if there is a
      publisher and the day on which the span begins is over. */
  lemma JobIffPast(now: int, hasPublisher: bool, events: seq<Event>, input: Input)
    requires var s := Run(Started(now, hasPublisher), events);
      Downloading(s.state) && !s.state.WAITING_ARCHIVE_PAGE? && s.pagesLeft == 0 && Enabled(s, Done(input))
    ensures var s := Run(Started(now, hasPublisher), events);
      var t, r := Step(s, Done(input)), ReadAll(s.trace);
      var begin := if r.first.Some? && r.first.value < r.created then r.first.value else r.created;
      var end := if r.mark.Some? then r.mark.value else 0;
      var past, over := begin / 86400 < input.now / 86_400_000_000_000, Then(s.trace, Completed);
      var told := if s.hasPublisher && past then Then(over, JobPublished(begin, end)) else over;
      && t.lastArchive == end
      && t.state == (if s.setTimeRequested then SENDING_WAKE_UP_SETTIME else WAITING_NEXT_MEASURE_TICK)
      && t.trace == if s.setTimeRequested then Then(told, Sent(Echo)) else told
  {
    var s := Run(Started(now, hasPublisher), events);
    StartedInv(now, hasPublisher);
    RunKeeps(Started(now, hasPublisher), events);
    SpanIsRead(s);
    hide Inv, Run, Started, Step, ReadAll, DownloadOver;
    OverStep(s, input);
    DaysOfTicks(input.now);
    DownloadOverIs(s.(pending := Nothing), input.now);
  }

  lemma OverStep(s: Session, input: Input)
    requires Downloading(s.state) && !s.state.WAITING_ARCHIVE_PAGE? && s.pagesLeft == 0 && Enabled(s, Done(input))
    ensures Step(s, Done(input)) == DownloadOver(s.(pending := Nothing), input.now)
  {
    hide OnSuccess, OnFault, DownloadOver;
    OnDownload(s.(pending := Nothing), input);
  }

  lemma SpanIsRead(s: Session)
    requires Inv(s) && s.open
    ensures s.oldest == JobBegin(ReadAll(s.trace)) && s.newest == JobEnd(ReadAll(s.trace))
  {
    hide ReadAll;
  }

  lemma DaysOfTicks(now: int)
    ensures Day(now / SECOND) == now / 86_400_000_000_000
  {
  }

  lemma DownloadOverIs(s: Session, now: int)
    requires s.open
    ensures var over := Then(s.trace, Completed);
      var told := if s.hasPublisher && Day(s.oldest) < Day(now / SECOND)
        then Then(over, JobPublished(s.oldest, s.newest)) else over;
      var t := DownloadOver(s, now);
      && t.lastArchive == s.newest
      && t.state == (if s.setTimeRequested then SENDING_WAKE_UP_SETTIME else WAITING_NEXT_MEASURE_TICK)
      && t.trace == if s.setTimeRequested then Then(told, Sent(Echo)) else told
  {
    hide Day;
  }

  /** A connector begins with the second in which it was created. */
  lemma StartedFrom(now: int, hasPublisher: bool)
    ensures var s := Started(now, hasPublisher);
      && s.trace == Then(Trace.Start(now / 1_000_000_000), Sent(Echo)) && s.hasPublisher == hasPublisher
      && s.state == SENDING_WAKE_UP_STATION && s.pending == Operation && s.open
      && s.timeouts == 0 && s.errors == 0 && s.ack == 0 && !s.coordsValid
      && s.oldest == now / 1_000_000_000 && s.newest == 0 && s.lastArchive == 0
      && s.setTimeRequested && !s.setTimeArmed
  {
  }
}

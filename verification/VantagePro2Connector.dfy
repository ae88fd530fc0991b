/** The connector itself: an object whose methods update its fields in place. Each
    method is proved to do to the object what the protocol does to a session. */
module VantagePro2Connectors {
  import opened Common
  import opened VantagePro2ArchivePages
  import opened VantagePro2Protocol
  import opened VantagePro2Runs

  lemma SetTimeEvent(s: Session, e: Outcome, input: Input)
    ensures s.state.SENDING_WAKE_UP_SETTIME? && e == Success ==>
      VantagePro2Protocol.HandleEvent(s, e, input) == Await(Goto(s, WAITING_ECHO_SETTIME))
    ensures s.state.WAITING_ECHO_SETTIME? && e == Success ==>
      VantagePro2Protocol.HandleEvent(s, e, input) == Restart(s, SENDING_SETTIME)
    ensures s.state.SENDING_SETTIME? && e == Success ==>
      VantagePro2Protocol.HandleEvent(s, e, input) == Await(Goto(s, WAITING_ACK_SETTIME))
    ensures (s.state.SENDING_WAKE_UP_SETTIME? || s.state.WAITING_ECHO_SETTIME?) && e != Success ==>
      VantagePro2Protocol.HandleEvent(s, e, input) == HandleGenericErrors(s, e, SENDING_WAKE_UP_SETTIME)
    ensures s.state.SENDING_SETTIME? && e != Success ==>
      VantagePro2Protocol.HandleEvent(s, e, input) == HandleGenericErrors(s, e, SENDING_SETTIME)
  {
    hide OnSuccess, Send, Await, Goto, Close, RetryAfterTimeout;
    OnSetTime(s, input);
    if s.state.SENDING_WAKE_UP_SETTIME? || s.state.WAITING_ECHO_SETTIME? || s.state.SENDING_SETTIME? {
      OnExchangeFault(s, e);
      hide OnFault;
    }
  }

  class VantagePro2Connector {
    var currentState: State
    var pending: Pending
    var socketOpen: bool
    var timeouts: nat
    var transmissionErrors: nat
    var ackBuffer: int
    var coordsValid: bool
    var pollingPeriod: int
    var pagesLeft: int
    var lastArchive: int
    var oldestArchive: int
    var newestArchive: int
    var setTimeRequested: bool
    var setTimeArmed: bool
    var hasPublisher: bool
    const archivePage: VantagePro2ArchivePage
    ghost var trace: Trace

    ghost function View(): Session
      reads this, archivePage
    {
      Session(currentState, pending, socketOpen, timeouts, transmissionErrors, ackBuffer, coordsValid,
              pollingPeriod, pagesLeft, archivePage.beginning, archivePage.mostRecent,
              lastArchive, oldestArchive, newestArchive, setTimeRequested, setTimeArmed, hasPublisher, trace)
    }

    constructor (now: int, jobPublisher: bool)
      ensures View() == NewSession(now, jobPublisher)
      ensures fresh(archivePage)
    {
      archivePage := new VantagePro2ArchivePage();
      currentState, pending, socketOpen := STARTING, Nothing, true;
      timeouts, transmissionErrors := 0, 0;
      ackBuffer, coordsValid, pollingPeriod, pagesLeft := 0, false, 0, 0;
      lastArchive, oldestArchive, newestArchive := 0, now / SECOND, 0;
      setTimeRequested, setTimeArmed, hasPublisher := true, false, jobPublisher;
      trace := Trace.Start(now / SECOND);
    }

    ghost method Record(a: Action)
      modifies this`trace
      ensures View() == Log(old(View()), a)
    {
      if socketOpen || !NeedsSocket(a) {
        trace := Then(trace, a);
      }
    }

    method Start()
      requires currentState == STARTING
      modifies this, archivePage
      ensures View() == VantagePro2Protocol.HandleEvent(old(View()), Success, NO_INPUT)
      ensures forall now: int :: old(View()) == NewSession(now, hasPublisher) ==> Inv(View())
    {
      forall now: int | View() == NewSession(now, hasPublisher) ensures Inv(Started(now, hasPublisher)) {
        StartedInv(now, hasPublisher);
      }
      hide Inv;
      HandleEvent(Success, NO_INPUT);
    }

    // ------------------------------------------------------------------ operations

    method Receive()
      modifies this
      ensures View() == Await(old(View()))
    {
      pending := Operation;
    }

    method SendMessage(m: Message)
      modifies this
      ensures View() == Send(old(View()), m)
    {
      Record(Sent(m));
      pending := Operation;
    }

    /** Moves to a state that waits for the station, or that has sent something. */
    method Enter(next: State)
      modifies this
      ensures View() == Await(Goto(old(View()), next))
    {
      hide Await;
      currentState := next;
      Receive();
    }

    method EnterSending(next: State, m: Message)
      modifies this
      ensures View() == Send(Goto(old(View()), next), m)
    {
      hide Send;
      currentState := next;
      SendMessage(m);
    }

    method Stop()
      modifies this
      ensures View() == Close(old(View()))
    {
      currentState := STOPPED;
      pending := Nothing;
      setTimeArmed := false;
      if socketOpen {
        Record(Closed);
        socketOpen := false;
      }
    }

    method WaitUntilNextMeasure()
      modifies this
      ensures View() == old(View()).(pending := Tick, timeouts := 0, errors := 0)
    {
      timeouts := 0;
      transmissionErrors := 0;
      pending := Tick;
    }

    /** Ends a cycle: back to waiting for the next measurement. */
    method EndCycle()
      modifies this
      ensures View() == WaitForNextMeasure(old(View()))
    {
      currentState := WAITING_NEXT_MEASURE_TICK;
      WaitUntilNextMeasure();
    }

    method FlushSocketAndRetry(restart: State)
      modifies this
      ensures View() == old(View()).(pending := Flush(restart))
    {
      pending := Flush(restart);
    }

    method HandleGenericErrors(e: Outcome, restart: State)
      modifies this
      ensures View() == VantagePro2Protocol.HandleGenericErrors(old(View()), e, restart)
    {
      hide Close;
      if e == Success {
        return;
      } else if e == TimedOut {
        timeouts := timeouts + 1;
        if timeouts < 5 {
          currentState := restart;
          FlushSocketAndRetry(restart);
        } else {
          Stop();
        }
      } else {
        Stop();
      }
    }

    method RetryOrStop(restart: State)
      modifies this
      ensures View() == RetryAfterError(old(View()), restart)
    {
      hide Close;
      transmissionErrors := transmissionErrors + 1;
      if transmissionErrors < 5 {
        FlushSocketAndRetry(restart);
      } else {
        Stop();
      }
    }

    /** A state that only waits: on success, wait for the next thing. */
    method ProceedTo(next: State, e: Outcome, restart: State)
      modifies this
      ensures View() == if e == Success then Await(Goto(old(View()), next))
        else VantagePro2Protocol.HandleGenericErrors(old(View()), e, restart)
    {
      hide Log, Send, Await, Close, Goto, RetryAfterTimeout, RetryAfterError;
      HandleGenericErrors(e, restart);
      if e == Success {
        Enter(next);
      }
    }

    /** A state that only waits: on success, send the request of the next exchange. */
    method RequestNext(next: State, e: Outcome, restart: State)
      modifies this
      ensures View() == if e == Success then Restart(old(View()), next)
        else VantagePro2Protocol.HandleGenericErrors(old(View()), e, restart)
    {
      hide Log, Send, Await, Close, Goto, RetryAfterTimeout, RetryAfterError;
      HandleGenericErrors(e, restart);
      if e == Success {
        EnterSending(next, RequestOf(next));
      }
    }

    /** A state that waits for an acknowledgement which may be asked for again. */
    method CheckAck(e: Outcome, restart: State) returns (acknowledged: bool)
      modifies this
      ensures acknowledged <==> e == Success && old(ackBuffer) == ACK
      ensures View() == if acknowledged then old(View())
        else if e == Success then RetryAfterError(old(View()), restart)
        else VantagePro2Protocol.HandleGenericErrors(old(View()), e, restart)
    {
      hide Log, Send, Await, Close, Goto, RetryAfterTimeout, RetryAfterError;
      acknowledged := false;
      if e == Success {
        if ackBuffer != ACK {
          RetryOrStop(restart);
        } else {
          acknowledged := true;
        }
      } else {
        HandleGenericErrors(e, restart);
      }
    }

    // -------------------------------------------------------------- the state machine

    method HandleEvent(e: Outcome, input: Input)
      modifies this, archivePage
      ensures View() == VantagePro2Protocol.HandleEvent(old(View()), e, input)
    {
      hide VantagePro2Protocol.HandleEvent, View;
      match currentState {
        case STARTING | WAITING_NEXT_MEASURE_TICK | WAITING_ACK_TIME_SET | STOPPED =>
          HandleIdle(e, input);
        case SENDING_WAKE_UP_STATION | WAITING_ECHO_STATION | SENDING_REQ_STATION | WAITING_ACK_STATION
           | WAITING_DATA_STATION | SENDING_REQ_MAIN_MODE | WAITING_ACK_MAIN_MODE | SENDING_REQ_TIMEZONE
           | WAITING_ACK_TIMEZONE | WAITING_DATA_TIMEZONE =>
          HandleIdentification(e, input);
        case SENDING_WAKE_UP_ARCHIVE | WAITING_ECHO_ARCHIVE | SENDING_REQ_ARCHIVE | WAITING_ACK_ARCHIVE =>
          HandleArchiveRequest(e, input);
        case SENDING_WAKE_UP_SETTIME | WAITING_ECHO_SETTIME | SENDING_SETTIME | WAITING_ACK_SETTIME =>
          HandleSetTimeRequest(e, input);
        case SENDING_ARCHIVE_PARAMS | WAITING_ACK_ARCHIVE_PARAMS | WAITING_ARCHIVE_NB_PAGES
           | SENDING_ABORT_ARCHIVE_DOWNLOAD | SENDING_SETTIME_PARAMS =>
          HandleParameters(e, input);
        case SENDING_ACK_ARCHIVE_DOWNLOAD | SENDING_ARCHIVE_PAGE_ANSWER | WAITING_ARCHIVE_PAGE =>
          HandlePages(e, input);
      }
    }

    /** The states at either end of a cycle. */
    method HandleIdle(e: Outcome, input: Input)
      requires currentState.STARTING? || currentState.WAITING_NEXT_MEASURE_TICK?
            || currentState.WAITING_ACK_TIME_SET? || currentState.STOPPED?
      modifies this
      ensures View() == VantagePro2Protocol.HandleEvent(old(View()), e, input)
    {
      hide Log, Send, Await, Close, RetryAfterTimeout, RetryAfterError,
        StationIdentified, TimezoneReceived, SizeReceived, ValidPage, InvalidPage, DownloadOver,
        WaitForNextMeasure, TimeSet, Goto;
      match currentState {
        case STARTING =>
          EnterSending(SENDING_WAKE_UP_STATION, Echo);
        case WAITING_NEXT_MEASURE_TICK =>
          if e == TimedOut {
            EnterSending(SENDING_WAKE_UP_ARCHIVE, Echo);
          } else {
            EndCycle();
          }
        case WAITING_ACK_TIME_SET =>
          FinishSetTime();
        case STOPPED =>
      }
    }

    /** The states that recognize the station and read its configuration. */
    method HandleIdentification(e: Outcome, input: Input)
      requires currentState.SENDING_WAKE_UP_STATION? || currentState.WAITING_ECHO_STATION?
            || currentState.SENDING_REQ_STATION? || currentState.WAITING_ACK_STATION?
            || currentState.WAITING_DATA_STATION? || currentState.SENDING_REQ_MAIN_MODE?
            || currentState.WAITING_ACK_MAIN_MODE? || currentState.SENDING_REQ_TIMEZONE?
            || currentState.WAITING_ACK_TIMEZONE? || currentState.WAITING_DATA_TIMEZONE?
      modifies this, archivePage
      ensures View() == VantagePro2Protocol.HandleEvent(old(View()), e, input)
    {
      hide Log, Send, Await, Close, RetryAfterTimeout, RetryAfterError,
        StationIdentified, TimezoneReceived, SizeReceived, ValidPage, InvalidPage, DownloadOver,
        WaitForNextMeasure, TimeSet, Goto;
      match currentState {
        case SENDING_WAKE_UP_STATION => ProceedTo(WAITING_ECHO_STATION, e, SENDING_WAKE_UP_STATION);
        case WAITING_ECHO_STATION => RequestNext(SENDING_REQ_STATION, e, SENDING_WAKE_UP_STATION);
        case SENDING_REQ_STATION => ProceedTo(WAITING_ACK_STATION, e, SENDING_REQ_STATION);
        case WAITING_ACK_STATION =>
          var ok := CheckAck(e, SENDING_REQ_STATION);
          if ok {
            Enter(WAITING_DATA_STATION);
          }
        case WAITING_DATA_STATION => ReceiveStation(e, input);
        case SENDING_REQ_MAIN_MODE => ProceedTo(WAITING_ACK_MAIN_MODE, e, SENDING_REQ_MAIN_MODE);
        case WAITING_ACK_MAIN_MODE => ReceiveMainMode(e);
        case SENDING_REQ_TIMEZONE => ProceedTo(WAITING_ACK_TIMEZONE, e, SENDING_REQ_TIMEZONE);
        case WAITING_ACK_TIMEZONE =>
          var ok := CheckAck(e, SENDING_REQ_TIMEZONE);
          if ok {
            Enter(WAITING_DATA_TIMEZONE);
          }
        case WAITING_DATA_TIMEZONE => ReceiveTimezone(e, input);
      }
    }

    method HandleArchiveRequest(e: Outcome, input: Input)
      requires currentState.SENDING_WAKE_UP_ARCHIVE? || currentState.WAITING_ECHO_ARCHIVE?
            || currentState.SENDING_REQ_ARCHIVE? || currentState.WAITING_ACK_ARCHIVE?
      modifies this
      ensures View() == VantagePro2Protocol.HandleEvent(old(View()), e, input)
    {
      hide Log, Send, Await, Close, RetryAfterTimeout, RetryAfterError,
        StationIdentified, TimezoneReceived, SizeReceived, ValidPage, InvalidPage, DownloadOver,
        WaitForNextMeasure, TimeSet, Goto;
      match currentState {
        case SENDING_WAKE_UP_ARCHIVE => ProceedTo(WAITING_ECHO_ARCHIVE, e, SENDING_WAKE_UP_ARCHIVE);
        case WAITING_ECHO_ARCHIVE => RequestNext(SENDING_REQ_ARCHIVE, e, SENDING_WAKE_UP_ARCHIVE);
        case SENDING_REQ_ARCHIVE => ProceedTo(WAITING_ACK_ARCHIVE, e, SENDING_REQ_ARCHIVE);
        case WAITING_ACK_ARCHIVE =>
          var ok := CheckAck(e, SENDING_REQ_ARCHIVE);
          if ok {
            EnterSending(SENDING_ARCHIVE_PARAMS, ArchiveParams(lastArchive));
          }
      }
    }

    method HandleSetTimeRequest(e: Outcome, input: Input)
      requires currentState.SENDING_WAKE_UP_SETTIME? || currentState.WAITING_ECHO_SETTIME?
            || currentState.SENDING_SETTIME? || currentState.WAITING_ACK_SETTIME?
      modifies this
      ensures View() == VantagePro2Protocol.HandleEvent(old(View()), e, input)
    {
      hide VantagePro2Protocol.HandleEvent, Send, Await, Goto;
      ghost var s := View();
      assert s.state == currentState;
      SetTimeEvent(s, e, input);
      hide View;
      if currentState.SENDING_WAKE_UP_SETTIME? {
        ProceedTo(WAITING_ECHO_SETTIME, e, SENDING_WAKE_UP_SETTIME);
      } else if currentState.WAITING_ECHO_SETTIME? {
        RequestNext(SENDING_SETTIME, e, SENDING_WAKE_UP_SETTIME);
      } else if currentState.SENDING_SETTIME? {
        ProceedTo(WAITING_ACK_SETTIME, e, SENDING_SETTIME);
      } else {
        HandleSetTimeAck(e, input);
      }
    }

    method HandleSetTimeAck(e: Outcome, input: Input)
      requires currentState.WAITING_ACK_SETTIME?
      modifies this
      ensures View() == VantagePro2Protocol.HandleEvent(old(View()), e, input)
    {
      hide Log, Send, Await, Close, RetryAfterTimeout, RetryAfterError, Goto;
      var ok := CheckAck(e, SENDING_SETTIME);
      if ok {
        EnterSending(SENDING_SETTIME_PARAMS, SetTimeParams);
      }
    }

    /** In the middle of a request any fault ends the session. */
    method HandleParameters(e: Outcome, input: Input)
      requires currentState.SENDING_ARCHIVE_PARAMS? || currentState.WAITING_ACK_ARCHIVE_PARAMS?
            || currentState.WAITING_ARCHIVE_NB_PAGES? || currentState.SENDING_ABORT_ARCHIVE_DOWNLOAD?
            || currentState.SENDING_SETTIME_PARAMS?
      modifies this
      ensures View() == VantagePro2Protocol.HandleEvent(old(View()), e, input)
    {
      hide Log, Send, Await, Close, RetryAfterTimeout, RetryAfterError,
        StationIdentified, TimezoneReceived, SizeReceived, ValidPage, InvalidPage, DownloadOver,
        WaitForNextMeasure, TimeSet, Goto;
      if e != Success {
        Stop();
        return;
      }
      match currentState {
        case SENDING_ARCHIVE_PARAMS =>
          Enter(WAITING_ACK_ARCHIVE_PARAMS);
        case WAITING_ACK_ARCHIVE_PARAMS =>
          if ackBuffer != ACK {
            Stop();
          } else {
            Enter(WAITING_ARCHIVE_NB_PAGES);
          }
        case WAITING_ARCHIVE_NB_PAGES => ReceiveSize(input);
        case SENDING_ABORT_ARCHIVE_DOWNLOAD =>
          EndCycle();
        case SENDING_SETTIME_PARAMS =>
          Enter(WAITING_ACK_TIME_SET);
      }
    }

    method HandlePages(e: Outcome, input: Input)
      requires currentState.SENDING_ACK_ARCHIVE_DOWNLOAD? || currentState.SENDING_ARCHIVE_PAGE_ANSWER?
            || currentState.WAITING_ARCHIVE_PAGE?
      modifies this, archivePage
      ensures View() == VantagePro2Protocol.HandleEvent(old(View()), e, input)
    {
      hide Log, Send, Await, Close, RetryAfterTimeout, RetryAfterError,
        StationIdentified, TimezoneReceived, SizeReceived, ValidPage, InvalidPage, DownloadOver,
        WaitForNextMeasure, TimeSet, Goto;
      if e != Success {
        Stop();
      } else if currentState.WAITING_ARCHIVE_PAGE? {
        if input.page.valid {
          StoreArchivePage(input);
        } else {
          RefuseArchivePage();
        }
      } else if pagesLeft != 0 {
        Enter(WAITING_ARCHIVE_PAGE);
      } else {
        FinishDownload(input.now);
      }
    }

    method ReceiveStation(e: Outcome, input: Input)
      modifies this
      ensures View() == if e == Success then StationIdentified(old(View()), input)
        else VantagePro2Protocol.HandleGenericErrors(old(View()), e, SENDING_REQ_STATION)
    {
      hide Log, Send, Await, Close, Goto, RetryAfterTimeout, RetryAfterError;
      HandleGenericErrors(e, SENDING_REQ_STATION);
      if e == Success {
        coordsValid := input.coordsValid;
        if !coordsValid {
          RetryOrStop(SENDING_REQ_STATION);
        } else {
          match input.station {
            case Known(polling, last) =>
              pollingPeriod := polling;
              lastArchive := last;
              EnterSending(SENDING_REQ_MAIN_MODE, MainMode);
            case Unknown =>
              Stop();
          }
        }
      }
    }

    method ReceiveMainMode(e: Outcome)
      modifies this
      ensures View() == if e == Success then Restart(old(View()), SENDING_REQ_TIMEZONE)
        else Close(VantagePro2Protocol.HandleGenericErrors(old(View()), e, SENDING_REQ_MAIN_MODE))
    {
      hide Log, Send, Await, Close, Goto, RetryAfterTimeout, RetryAfterError;
      HandleGenericErrors(e, SENDING_REQ_MAIN_MODE);
      if e == Success {
        EnterSending(SENDING_REQ_TIMEZONE, GetTimezone);
      } else {
        Stop();
      }
    }

    method ReceiveTimezone(e: Outcome, input: Input)
      modifies this, archivePage
      ensures View() == if e == Success then TimezoneReceived(old(View()), input)
        else VantagePro2Protocol.HandleGenericErrors(old(View()), e, SENDING_REQ_TIMEZONE)
    {
      hide Log, Send, Await, Close, Goto, RetryAfterTimeout, RetryAfterError;
      HandleGenericErrors(e, SENDING_REQ_TIMEZONE);
      if e == Success {
        if !coordsValid {
          RetryOrStop(SENDING_REQ_TIMEZONE);
        } else {
          archivePage.Prepare(lastArchive);
          Record(Prepared(lastArchive));
          if input.now - Ticks(lastArchive) > Ticks(60 * pollingPeriod) {
            EnterSending(SENDING_WAKE_UP_ARCHIVE, Echo);
          } else {
            EnterSending(SENDING_WAKE_UP_SETTIME, Echo);
          }
        }
      }
    }

    method FinishSetTime()
      modifies this
      ensures View() == TimeSet(old(View()))
    {
      setTimeRequested := false;
      setTimeArmed := true;
      EndCycle();
    }

    method ReceiveSize(input: Input)
      modifies this
      ensures View() == SizeReceived(old(View()), input)
    {
      hide Log, Send, Await, Close, Goto, RetryAfterTimeout, RetryAfterError;
      pagesLeft := input.size.pages;
      if input.size.valid {
        Record(Announced(input.size.pages));
        EnterSending(SENDING_ACK_ARCHIVE_DOWNLOAD, Ack);
      } else {
        EnterSending(SENDING_ABORT_ARCHIVE_DOWNLOAD, Abort);
      }
    }

    method RefuseArchivePage()
      modifies this
      ensures View() == InvalidPage(old(View()))
    {
      hide Log, Send, Await, Close, Goto, RetryAfterTimeout, RetryAfterError;
      currentState := SENDING_ARCHIVE_PAGE_ANSWER;
      transmissionErrors := transmissionErrors + 1;
      Record(Rejected);
      if transmissionErrors > 100 {
        Stop();
      }
      SendMessage(Nak);
    }

    ghost method RecordStore(inserted: seq<DataPoint>, ok: bool)
      modifies this`trace
      ensures View() == LogStore(old(View()), inserted, ok)
    {
      trace := LogInserted(trace, inserted);
      if ok {
        trace := Then(trace, Batched(inserted));
      }
    }

    method MoveWatermark(page: seq<DataPoint>, clock: Clock)
      modifies this
      ensures View() == PageStored(old(View()), page, clock)
    {
      hide Log;
      Record(Accepted(page, clock));
      if archivePage.mostRecent > newestArchive {
        newestArchive := archivePage.mostRecent;
        Record(Watermark(newestArchive));
      }
      if archivePage.mostRecent < oldestArchive {
        oldestArchive := archivePage.mostRecent;
      }
    }

    method StoreArchivePage(input: Input)
      modifies this, archivePage
      ensures View() == ValidPage(old(View()), input)
    {
      hide Log, Send, Await, Close, LogStore, PageStored, Store;
      var ok, inserted := archivePage.StorePage(input.page.points, input.db, input.clock);
      RecordStore(inserted, ok);
      if ok {
        MoveWatermark(input.page.points, input.clock);
      } else {
        Stop();
      }
      pagesLeft := pagesLeft - 1;
      EnterSending(SENDING_ARCHIVE_PAGE_ANSWER, Ack);
    }

    method FinishDownload(now: int)
      modifies this
      ensures View() == DownloadOver(old(View()), now)
    {
      hide Log, Send, Await, Close, WaitForNextMeasure, RetryAfterTimeout, RetryAfterError;
      lastArchive := newestArchive;
      Record(Completed);
      if hasPublisher && Day(oldestArchive) < Day(now / SECOND) {
        Record(JobPublished(oldestArchive, newestArchive));
      }
      if setTimeRequested {
        EnterSending(SENDING_WAKE_UP_SETTIME, Echo);
      } else {
        EndCycle();
      }
    }

    // ------------------------------------------------------------------ the event loop

    /** The completion of the outstanding operation: `recvAck` starts again on a line end. */
    method Complete(input: Input)
      requires pending.Operation? && socketOpen
      modifies this, archivePage
      ensures View() == Step(old(View()), Done(input))
    {
      hide Log, Send, Close, VantagePro2Protocol.HandleEvent;
      if ReadsAck(currentState) {
        ackBuffer := input.ack;
      }
      if ReadsAck(currentState) && IsLineEnd(ackBuffer) {
        Receive();
      } else {
        pending := Nothing;
        HandleEvent(Success, input);
      }
    }

    /** Its failure, where the last byte read may still be a line end. */
    method Fail()
      requires pending.Operation?
      modifies this, archivePage
      ensures View() == Step(old(View()), Failed)
    {
      hide Log, Send, Close, VantagePro2Protocol.HandleEvent;
      if ReadsAck(currentState) && IsLineEnd(ackBuffer) {
        Receive();
      } else {
        pending := Nothing;
        HandleEvent(Broken, NO_INPUT);
      }
    }

    method CheckDeadline()
      requires pending.Operation? || pending.Tick?
      modifies this, archivePage
      ensures View() == Step(old(View()), Deadline)
    {
      hide Log, Send, Close, VantagePro2Protocol.HandleEvent;
      timeouts := timeouts + 1;
      pending := Nothing;
      HandleEvent(TimedOut, NO_INPUT);
    }

    method RestartAfterFlush()
      requires pending.Flush?
      modifies this
      ensures View() == Step(old(View()), FlushOver)
    {
      hide Log, Send, Close, VantagePro2Protocol.HandleEvent;
      var restart := pending.restart;
      pending := Nothing;
      EnterSending(restart, RequestOf(restart));
    }

    method HandleSetTimeDeadline()
      requires setTimeArmed
      modifies this
      ensures View() == Step(old(View()), SetTimeDue)
    {
      setTimeRequested := true;
      setTimeArmed := false;
    }

    /** Delivers one event of the event loop, and keeps the invariant of all runs. */
    method Deliver(event: Event)
      requires Enabled(View(), event)
      modifies this, archivePage
      ensures View() == Step(old(View()), event)
      ensures Inv(old(View())) ==> Inv(View())
    {
      hide Inv, Log, Send, Close, VantagePro2Protocol.HandleEvent, Restart;
      if Inv(View()) {
        StepKeeps(View(), event);
      }
      match event {
        case Done(input) => Complete(input);
        case Failed => Fail();
        case Deadline => CheckDeadline();
        case FlushOver => RestartAfterFlush();
        case SetTimeDue => HandleSetTimeDeadline();
        case StopRequest => Stop();
      }
    }
  }
}

/** The order of everything that leaves the connector, as an automaton that knows nothing
    of its states: which request may follow which, what is logged between them, and that
    nothing follows the closing of the socket. */
module VantagePro2Conversation {
  import opened Common
  import opened VantagePro2ArchivePages
  import opened VantagePro2Protocol
  import opened VantagePro2Runs

  /** A station is woken up for the archive or for its clock after the configuration or a
      download (`Awake`), and only for the archive at a later tick (`Roused`). */
  datatype Phase =
    | Fresh | Waking | Identifying | Configuring | Zoning | Ready | Awake | Roused | Asking | Asked | Announcing
    | Downloads | Complete | Idle | Setting | Over | Wrong

  function Reply(p: Phase, m: Message): Phase {
    match m
    case Echo =>
      if p.Fresh? || p.Waking? then Waking
      else if p.Ready? || p.Awake? || p.Complete? then Awake
      else if p.Idle? || p.Roused? then Roused
      else Wrong
    case GetStation => if p.Waking? || p.Identifying? then Identifying else Wrong
    case MainMode => if p.Identifying? || p.Configuring? then Configuring else Wrong
    case GetTimezone => if p.Configuring? || p.Zoning? then Zoning else Wrong
    case GetArchive => if p.Awake? || p.Roused? || p.Asking? then Asking else Wrong
    case ArchiveParams(_) => if p.Asking? then Asked else Wrong
    case Ack => if p.Announcing? || p.Downloads? then Downloads else Wrong
    case Nak => if p.Downloads? then Downloads else Wrong
    case Abort => if p.Asked? then Idle else Wrong
    case SetTime => if p.Awake? || p.Setting? then Setting else Wrong
    case SetTimeParams => if p.Setting? then Idle else Wrong
  }

  function Next(p: Phase, a: Action): Phase {
    match a
    case Sent(m) => Reply(p, m)
    case Prepared(_) => if p.Zoning? then Ready else Wrong
    case Announced(_) => if p.Asked? then Announcing else Wrong
    case Inserted(_) => if p.Downloads? then Downloads else Wrong
    case Batched(_) => if p.Downloads? then Downloads else Wrong
    case Accepted(_, _) => if p.Downloads? then Downloads else Wrong
    case Rejected => if p.Downloads? then Downloads else Wrong
    case Watermark(_) => if p.Downloads? then Downloads else Wrong
    case Completed => if p.Downloads? then Complete else Wrong
    case JobPublished(_, _) => if p.Complete? then Complete else Wrong
    case Closed => if p.Over? then Wrong else Over
  }

  function PhaseAfter(t: Trace): Phase {
    match t
    case Start(_) => Fresh
    case Then(b, a) => if PhaseAfter(b).Wrong? then Wrong else Next(PhaseAfter(b), a)
  }

  /** Where a state of the connector is in the conversation. */
  function PhaseOf(st: State): Phase {
    match st
    case STARTING => Fresh
    case SENDING_WAKE_UP_STATION | WAITING_ECHO_STATION => Waking
    case SENDING_REQ_STATION | WAITING_ACK_STATION | WAITING_DATA_STATION => Identifying
    case SENDING_REQ_MAIN_MODE | WAITING_ACK_MAIN_MODE => Configuring
    case SENDING_REQ_TIMEZONE | WAITING_ACK_TIMEZONE | WAITING_DATA_TIMEZONE => Zoning
    case SENDING_WAKE_UP_ARCHIVE | WAITING_ECHO_ARCHIVE | SENDING_WAKE_UP_SETTIME | WAITING_ECHO_SETTIME => Awake
    case SENDING_REQ_ARCHIVE | WAITING_ACK_ARCHIVE => Asking
    case SENDING_ARCHIVE_PARAMS | WAITING_ACK_ARCHIVE_PARAMS | WAITING_ARCHIVE_NB_PAGES => Asked
    case SENDING_ACK_ARCHIVE_DOWNLOAD | WAITING_ARCHIVE_PAGE | SENDING_ARCHIVE_PAGE_ANSWER => Downloads
    case SENDING_SETTIME | WAITING_ACK_SETTIME => Setting
    case SENDING_ABORT_ARCHIVE_DOWNLOAD | SENDING_SETTIME_PARAMS | WAITING_ACK_TIME_SET => Idle
    case WAITING_NEXT_MEASURE_TICK => Idle
    case STOPPED => Over
  }

  predicate InPhase(p: Phase, st: State) {
    || p == PhaseOf(st)
    || (p.Complete? && st.WAITING_NEXT_MEASURE_TICK?)
    || (p.Roused? && (st.SENDING_WAKE_UP_ARCHIVE? || st.WAITING_ECHO_ARCHIVE?))
  }

  predicate Talks(s: Session) {
    var p := PhaseAfter(s.trace);
    if !s.open then p.Over? else InPhase(p, s.state)
  }

  lemma TalkingIn(s: Session)
    requires Talks(s) && s.open && !s.state.WAITING_NEXT_MEASURE_TICK?
    requires !s.state.SENDING_WAKE_UP_ARCHIVE? && !s.state.WAITING_ECHO_ARCHIVE?
    ensures PhaseAfter(s.trace) == PhaseOf(s.state)
  {
    hide PhaseAfter, PhaseOf;
  }

  lemma PhasesOfRequest()
    ensures PhaseOf(SENDING_WAKE_UP_ARCHIVE) == Awake && PhaseOf(WAITING_ECHO_ARCHIVE) == Awake
    ensures PhaseOf(SENDING_REQ_ARCHIVE) == Asking && PhaseOf(WAITING_ACK_ARCHIVE) == Asking
    ensures PhaseOf(SENDING_ARCHIVE_PARAMS) == Asked
  {
  }

  lemma PhasesOfSetTime()
    ensures PhaseOf(SENDING_WAKE_UP_SETTIME) == Awake && PhaseOf(WAITING_ECHO_SETTIME) == Awake
    ensures PhaseOf(SENDING_SETTIME) == Setting && PhaseOf(WAITING_ACK_SETTIME) == Setting
    ensures PhaseOf(SENDING_SETTIME_PARAMS) == Idle
  {
  }

  lemma PhasesOfDownload()
    ensures PhaseOf(SENDING_ARCHIVE_PARAMS) == Asked && PhaseOf(WAITING_ACK_ARCHIVE_PARAMS) == Asked
    ensures PhaseOf(WAITING_ARCHIVE_NB_PAGES) == Asked && PhaseOf(WAITING_ARCHIVE_PAGE) == Downloads
    ensures PhaseOf(SENDING_ACK_ARCHIVE_DOWNLOAD) == Downloads && PhaseOf(SENDING_ARCHIVE_PAGE_ANSWER) == Downloads
  {
  }

  lemma MoveTalks(s: Session, next: State)
    requires s.open && InPhase(PhaseAfter(s.trace), next)
    ensures Talks(Await(Goto(s, next)))
  {
    hide PhaseAfter, InPhase;
  }

  lemma SendTalks(s: Session, next: State, m: Message)
    requires s.open && !PhaseAfter(s.trace).Wrong?
    requires !Reply(PhaseAfter(s.trace), m).Wrong? && InPhase(Reply(PhaseAfter(s.trace), m), next)
    ensures Talks(Send(Goto(s, next), m))
  {
    hide InPhase, Reply;
  }

  lemma CloseTalks(s: Session)
    requires if s.open then !PhaseAfter(s.trace).Wrong? && !PhaseAfter(s.trace).Over? else PhaseAfter(s.trace).Over?
    ensures Talks(Close(s))
  {
  }

  lemma RestartTalks(s: Session, restart: State)
    requires Talks(s) && s.open && IsRestart(restart) && RestartOf(s.state) == restart
    ensures Talks(Restart(s, restart))
    ensures Talks(s.(state := restart))
  {
  }

  /** What is pending, counted or buffered plays no part in the conversation. */
  lemma SameTalk(s: Session, t: Session)
    requires Talks(s) && t.open == s.open && t.state == s.state && t.trace == s.trace
    ensures Talks(t)
  {
  }

  lemma NeitherOverNorWrong(s: Session)
    requires Talks(s) && s.open && !s.state.STOPPED?
    ensures !PhaseAfter(s.trace).Wrong? && !PhaseAfter(s.trace).Over?
  {
    hide PhaseAfter;
  }

  lemma ErrorTalks(s: Session, restart: State)
    requires Talks(s) && s.open && !s.state.STOPPED?
    ensures Talks(RetryAfterError(s, restart))
  {
    hide Talks, PhaseAfter, Close;
    var t := s.(errors := s.errors + 1);
    NeitherOverNorWrong(s);
    SameTalk(s, t.(pending := Flush(restart)));
    CloseTalks(t);
  }

  lemma TimeoutTalks(s: Session, restart: State)
    requires Talks(s) && s.open && !s.state.STOPPED? && IsRestart(restart) && RestartOf(s.state) == restart
    ensures Talks(RetryAfterTimeout(s, restart))
  {
    hide Talks, PhaseAfter, Close, IsRestart, RestartOf;
    var t := s.(timeouts := s.timeouts + 1);
    NeitherOverNorWrong(s);
    RestartTalks(s, restart);
    SameTalk(s.(state := restart), t.(state := restart, pending := Flush(restart)));
    CloseTalks(t);
  }

  lemma RetryTalks(s: Session, restart: State)
    requires Talks(s) && s.open && !s.state.STOPPED?
    requires IsRestart(restart) && RestartOf(s.state) == restart
    ensures Talks(RetryAfterError(s, restart)) && Talks(RetryAfterTimeout(s, restart))
  {
    hide Talks, RetryAfterError, RetryAfterTimeout;
    ErrorTalks(s, restart);
    TimeoutTalks(s, restart);
  }

  lemma {:induction false} InsertingTalks(t: Trace, points: seq<DataPoint>)
    requires PhaseAfter(t).Downloads?
    ensures PhaseAfter(LogInserted(t, points)).Downloads?
  {
    if points == [] {
    } else {
      InsertingTalks(t, points[..|points| - 1]);
    }
  }

  lemma PhaseThen(t: Trace, a: Action)
    requires !PhaseAfter(t).Wrong?
    ensures PhaseAfter(Then(t, a)) == Next(PhaseAfter(t), a)
  {
  }

  lemma StoredTalks(s: Session, page: seq<DataPoint>, clock: Clock)
    requires s.open && PhaseAfter(s.trace).Downloads?
    ensures PhaseAfter(PageStored(s, page, clock).trace).Downloads? && PageStored(s, page, clock).open
  {
    hide PhaseAfter;
    PhaseThen(s.trace, Accepted(page, clock));
    PhaseThen(Then(s.trace, Accepted(page, clock)), Watermark(s.mostRecent));
  }

  lemma LoggedTalks(s: Session, points: seq<DataPoint>, ok: bool)
    requires s.open && PhaseAfter(s.trace).Downloads?
    ensures var t := LogStore(s, points, ok); t.open && PhaseAfter(t.trace).Downloads?
  {
    InsertingTalks(s.trace, points);
    PhaseThen(LogInserted(s.trace, points), Batched(points));
    hide LogInserted, PhaseAfter;
  }

  lemma ValidPageTalks(s: Session, input: Input)
    requires Talks(s) && s.open && s.state.WAITING_ARCHIVE_PAGE?
    ensures Talks(ValidPage(s, input))
  {
    hide Store, LogStore, PageStored, Close, PhaseAfter, PhaseOf, Send, Goto;
    var r := Store(input.page.points, input.db, s.beginning, s.mostRecent, input.clock);
    var t := LogStore(s.(mostRecent := r.mostRecent), r.inserted, r.ok);
    var u := if r.ok then PageStored(t, input.page.points, input.clock) else Close(t);
    TalkingIn(s);
    PhasesOfDownload();
    LoggedTalks(s.(mostRecent := r.mostRecent), r.inserted, r.ok);
    if r.ok {
      StoredTalks(t, input.page.points, input.clock);
    } else {
      CloseTalks(t);
      ClosedByClose(t);
    }
    AnswerTalks(u.(pagesLeft := u.pagesLeft - 1), Ack);
  }

  lemma AnswerTalks(s: Session, m: Message)
    requires m.Ack? || m.Nak?
    requires if s.open then PhaseAfter(s.trace).Downloads? else PhaseAfter(s.trace).Over?
    ensures Talks(Send(Goto(s, SENDING_ARCHIVE_PAGE_ANSWER), m))
    ensures !s.open ==> Talks(Send(s, m))
  {
  }

  lemma InvalidPageTalks(s: Session)
    requires Talks(s) && s.open && s.state.WAITING_ARCHIVE_PAGE?
    ensures Talks(InvalidPage(s))
  {
    var t := Log(s.(errors := s.errors + 1, state := SENDING_ARCHIVE_PAGE_ANSWER), Rejected);
    PhaseThen(s.trace, Rejected);
    hide PhaseAfter, Close;
    CloseTalks(t);
    ClosedByClose(t);
    AnswerTalks(t, Nak);
    AnswerTalks(Close(t), Nak);
  }

  lemma ClosedByClose(s: Session)
    ensures !Close(s).open
  {
  }

  lemma DownloadOverTalks(s: Session, now: int)
    requires Talks(s) && s.open && PhaseAfter(s.trace).Downloads?
    ensures Talks(DownloadOver(s, now))
  {
    hide PhaseAfter;
    var t := Then(s.trace, Completed);
    var j := JobPublished(s.oldest, s.newest);
    PhaseThen(s.trace, Completed);
    PhaseThen(t, j);
    PhaseThen(t, Sent(Echo));
    PhaseThen(Then(t, j), Sent(Echo));
  }

  lemma SizeTalks(s: Session, input: Input)
    requires Talks(s) && s.open && s.state.WAITING_ARCHIVE_NB_PAGES?
    ensures Talks(SizeReceived(s, input))
  {
    hide PhaseAfter, PhaseOf, Send, Goto, Log;
    var t := s.(pagesLeft := input.size.pages);
    var u := Log(t, Announced(input.size.pages));
    PhasesOfSize();
    TalkingIn(s);
    PhaseThen(s.trace, Announced(input.size.pages));
    LogFrame(t, Announced(input.size.pages));
    assert PhaseAfter(u.trace) == Announcing;
    hide Talks;
    SendTalks(u, SENDING_ACK_ARCHIVE_DOWNLOAD, Ack);
    SendTalks(t, SENDING_ABORT_ARCHIVE_DOWNLOAD, Abort);
  }

  lemma PhasesOfSize()
    ensures PhaseOf(WAITING_ARCHIVE_NB_PAGES) == Asked
    ensures PhaseOf(SENDING_ACK_ARCHIVE_DOWNLOAD) == Downloads && PhaseOf(SENDING_ABORT_ARCHIVE_DOWNLOAD) == Idle
  {
  }

  lemma TimezoneTalks(s: Session, input: Input)
    requires Talks(s) && s.open && s.state.WAITING_DATA_TIMEZONE?
    ensures Talks(TimezoneReceived(s, input))
  {
    hide PhaseAfter, RetryAfterError, Send, Goto, Log;
    var t := s.(beginning := s.lastArchive, mostRecent := s.lastArchive);
    var u := Log(t, Prepared(s.lastArchive));
    ErrorTalks(s, SENDING_REQ_TIMEZONE);
    PhaseThen(s.trace, Prepared(s.lastArchive));
    LogFrame(t, Prepared(s.lastArchive));
    assert PhaseAfter(u.trace) == Ready;
    SendTalks(u, SENDING_WAKE_UP_ARCHIVE, Echo);
    SendTalks(u, SENDING_WAKE_UP_SETTIME, Echo);
    hide Talks;
  }

  lemma StationTalks(s: Session, input: Input)
    requires Talks(s) && s.open && s.state.WAITING_DATA_STATION?
    ensures Talks(StationIdentified(s, input))
  {
    hide Talks, PhaseAfter, PhaseOf, RetryAfterError, Close, Send, Goto;
    var t := s.(coordsValid := input.coordsValid);
    TalkingIn(s);
    PhasesOfOpening();
    PhasesOfConfiguration();
    SameTalk(s, t);
    ErrorTalks(t, SENDING_REQ_STATION);
    CloseTalks(t);
    if input.station.Known? {
      var u := t.(polling := input.station.polling, lastArchive := input.station.lastArchive);
      SendTalks(u, SENDING_REQ_MAIN_MODE, MainMode);
    }
  }

  lemma OpeningTalks(s: Session, input: Input)
    requires Talks(s) && s.open
    requires s.state.SENDING_WAKE_UP_STATION? || s.state.WAITING_ECHO_STATION?
          || s.state.SENDING_REQ_STATION? || s.state.WAITING_ACK_STATION? || s.state.WAITING_DATA_STATION?
    ensures Talks(OnSuccess(s, input))
  {
    hide Talks, PhaseAfter, PhaseOf, OnSuccess, StationIdentified, RetryAfterError, Send, Await, Goto;
    TalkingIn(s);
    PhasesOfOpening();
    OnIdentification(s, input);
    if s.state.SENDING_WAKE_UP_STATION? {
      MoveTalks(s, WAITING_ECHO_STATION);
    } else if s.state.WAITING_ECHO_STATION? {
      SendTalks(s, SENDING_REQ_STATION, GetStation);
    } else if s.state.SENDING_REQ_STATION? {
      MoveTalks(s, WAITING_ACK_STATION);
    } else if s.state.WAITING_ACK_STATION? {
      ErrorTalks(s, SENDING_REQ_STATION);
      MoveTalks(s, WAITING_DATA_STATION);
    } else {
      StationTalks(s, input);
    }
  }

  lemma PhasesOfOpening()
    ensures PhaseOf(SENDING_WAKE_UP_STATION) == Waking && PhaseOf(WAITING_ECHO_STATION) == Waking
    ensures PhaseOf(SENDING_REQ_STATION) == Identifying && PhaseOf(WAITING_ACK_STATION) == Identifying
    ensures PhaseOf(WAITING_DATA_STATION) == Identifying
  {
  }

  lemma ConfigurationTalks(s: Session, input: Input)
    requires Talks(s) && s.open
    requires s.state.SENDING_REQ_MAIN_MODE? || s.state.WAITING_ACK_MAIN_MODE? || s.state.SENDING_REQ_TIMEZONE?
          || s.state.WAITING_ACK_TIMEZONE? || s.state.WAITING_DATA_TIMEZONE?
    ensures Talks(OnSuccess(s, input))
  {
    hide Talks, PhaseAfter, PhaseOf, OnSuccess, TimezoneReceived, RetryAfterError, Send, Await, Goto;
    TalkingIn(s);
    PhasesOfConfiguration();
    OnConfiguration(s, input);
    if s.state.SENDING_REQ_MAIN_MODE? {
      MoveTalks(s, WAITING_ACK_MAIN_MODE);
    } else if s.state.WAITING_ACK_MAIN_MODE? {
      SendTalks(s, SENDING_REQ_TIMEZONE, GetTimezone);
    } else if s.state.SENDING_REQ_TIMEZONE? {
      MoveTalks(s, WAITING_ACK_TIMEZONE);
    } else if s.state.WAITING_ACK_TIMEZONE? {
      ErrorTalks(s, SENDING_REQ_TIMEZONE);
      MoveTalks(s, WAITING_DATA_TIMEZONE);
    } else {
      TimezoneTalks(s, input);
    }
  }

  lemma PhasesOfConfiguration()
    ensures PhaseOf(SENDING_REQ_MAIN_MODE) == Configuring && PhaseOf(WAITING_ACK_MAIN_MODE) == Configuring
    ensures PhaseOf(SENDING_REQ_TIMEZONE) == Zoning && PhaseOf(WAITING_ACK_TIMEZONE) == Zoning
    ensures PhaseOf(WAITING_DATA_TIMEZONE) == Zoning
  {
  }

  lemma RequestingIn(s: Session)
    requires Talks(s) && s.open
    ensures var p := PhaseAfter(s.trace);
      && (s.state.SENDING_WAKE_UP_ARCHIVE? || s.state.WAITING_ECHO_ARCHIVE? ==>
            (p.Awake? || p.Roused?) && InPhase(p, WAITING_ECHO_ARCHIVE))
      && (s.state.SENDING_REQ_ARCHIVE? || s.state.WAITING_ACK_ARCHIVE? ==> p.Asking? && InPhase(p, WAITING_ACK_ARCHIVE))
    ensures InPhase(Asking, SENDING_REQ_ARCHIVE) && InPhase(Asked, SENDING_ARCHIVE_PARAMS)
  {
    hide PhaseAfter, PhaseOf;
    PhasesOfRequest();
  }

  lemma RequestTalks(s: Session, input: Input)
    requires Talks(s) && s.open
    requires s.state.SENDING_WAKE_UP_ARCHIVE? || s.state.WAITING_ECHO_ARCHIVE? || s.state.SENDING_REQ_ARCHIVE?
          || s.state.WAITING_ACK_ARCHIVE?
    ensures Talks(OnSuccess(s, input))
  {
    hide Talks, PhaseAfter, InPhase, OnSuccess, RetryAfterError, Send, Await, Goto;
    RequestingIn(s);
    OnRequest(s, input);
    if s.state.SENDING_WAKE_UP_ARCHIVE? {
      MoveTalks(s, WAITING_ECHO_ARCHIVE);
    } else if s.state.WAITING_ECHO_ARCHIVE? {
      SendTalks(s, SENDING_REQ_ARCHIVE, GetArchive);
    } else if s.state.SENDING_REQ_ARCHIVE? {
      MoveTalks(s, WAITING_ACK_ARCHIVE);
    } else {
      ErrorTalks(s, SENDING_REQ_ARCHIVE);
      SendTalks(s, SENDING_ARCHIVE_PARAMS, ArchiveParams(s.lastArchive));
    }
  }

  lemma DownloadTalks(s: Session, input: Input)
    requires Talks(s) && s.open
    requires s.state.SENDING_ARCHIVE_PARAMS? || s.state.WAITING_ACK_ARCHIVE_PARAMS?
          || s.state.WAITING_ARCHIVE_NB_PAGES? || Downloading(s.state)
    ensures Talks(OnSuccess(s, input))
  {
    hide Talks, PhaseAfter, PhaseOf, OnSuccess, SizeReceived, ValidPage, InvalidPage, DownloadOver, Await, Goto, Close;
    TalkingIn(s);
    PhasesOfDownload();
    OnDownload(s, input);
    if s.state.SENDING_ARCHIVE_PARAMS? {
      MoveTalks(s, WAITING_ACK_ARCHIVE_PARAMS);
    } else if s.state.WAITING_ACK_ARCHIVE_PARAMS? {
      CloseTalks(s);
      MoveTalks(s, WAITING_ARCHIVE_NB_PAGES);
    } else if s.state.WAITING_ARCHIVE_NB_PAGES? {
      SizeTalks(s, input);
    } else if s.state.WAITING_ARCHIVE_PAGE? {
      ValidPageTalks(s, input);
      InvalidPageTalks(s);
    } else {
      MoveTalks(s, WAITING_ARCHIVE_PAGE);
      DownloadOverTalks(s, input.now);
    }
  }

  lemma WaitTalks(s: Session)
    requires s.open && (PhaseAfter(s.trace).Idle? || PhaseAfter(s.trace).Complete?)
    ensures Talks(WaitForNextMeasure(s)) && Talks(TimeSet(s))
  {
  }

  lemma SetTimeTalks(s: Session, input: Input)
    requires Talks(s) && s.open
    requires s.state.SENDING_WAKE_UP_SETTIME? || s.state.WAITING_ECHO_SETTIME? || s.state.SENDING_SETTIME?
          || s.state.WAITING_ACK_SETTIME?
    ensures Talks(OnSuccess(s, input))
  {
    hide Talks, PhaseAfter, PhaseOf, OnSuccess, RetryAfterError, Send, Await, Goto;
    TalkingIn(s);
    PhasesOfSetTime();
    OnSetTime(s, input);
    if s.state.SENDING_WAKE_UP_SETTIME? {
      MoveTalks(s, WAITING_ECHO_SETTIME);
    } else if s.state.WAITING_ECHO_SETTIME? {
      SendTalks(s, SENDING_SETTIME, SetTime);
    } else if s.state.SENDING_SETTIME? {
      MoveTalks(s, WAITING_ACK_SETTIME);
    } else {
      ErrorTalks(s, SENDING_SETTIME);
      SendTalks(s, SENDING_SETTIME_PARAMS, SetTimeParams);
    }
  }

  lemma IdleTalks(s: Session, input: Input)
    requires Talks(s) && s.open
    requires s.state.SENDING_SETTIME_PARAMS? || s.state.WAITING_ACK_TIME_SET?
          || s.state.SENDING_ABORT_ARCHIVE_DOWNLOAD? || s.state.WAITING_NEXT_MEASURE_TICK?
    ensures Talks(OnSuccess(s, input))
  {
    WaitTalks(s);
    hide PhaseAfter, Await, Goto, WaitForNextMeasure, TimeSet;
    if s.state.SENDING_SETTIME_PARAMS? {
      MoveTalks(s, WAITING_ACK_TIME_SET);
    }
  }

  lemma SuccessTalks(s: Session, input: Input)
    requires Talks(s) && s.open && !s.state.STOPPED? && !s.state.STARTING?
    ensures Talks(OnSuccess(s, input))
  {
    hide Talks, OnSuccess;
    match s.state
    case SENDING_REQ_MAIN_MODE | WAITING_ACK_MAIN_MODE | SENDING_REQ_TIMEZONE | WAITING_ACK_TIMEZONE
       | WAITING_DATA_TIMEZONE =>
      ConfigurationTalks(s, input);
    case SENDING_WAKE_UP_ARCHIVE | WAITING_ECHO_ARCHIVE | SENDING_REQ_ARCHIVE | WAITING_ACK_ARCHIVE =>
      RequestTalks(s, input);
    case SENDING_ARCHIVE_PARAMS | WAITING_ACK_ARCHIVE_PARAMS | WAITING_ARCHIVE_NB_PAGES
       | SENDING_ACK_ARCHIVE_DOWNLOAD | WAITING_ARCHIVE_PAGE | SENDING_ARCHIVE_PAGE_ANSWER =>
      DownloadTalks(s, input);
    case SENDING_WAKE_UP_SETTIME | WAITING_ECHO_SETTIME | SENDING_SETTIME | WAITING_ACK_SETTIME =>
      SetTimeTalks(s, input);
    case SENDING_SETTIME_PARAMS | WAITING_ACK_TIME_SET | SENDING_ABORT_ARCHIVE_DOWNLOAD | WAITING_NEXT_MEASURE_TICK =>
      IdleTalks(s, input);
    case _ => OpeningTalks(s, input);
  }

  lemma TickTalks(s: Session)
    requires Talks(s) && s.open && s.state.WAITING_NEXT_MEASURE_TICK?
    ensures Talks(Restart(s, SENDING_WAKE_UP_ARCHIVE)) && Talks(WaitForNextMeasure(s))
  {
    SendTalks(s, SENDING_WAKE_UP_ARCHIVE, Echo);
    WaitTalks(s);
    hide Send, Goto;
  }

  lemma MainModeTalks(s: Session, outcome: Outcome)
    requires Talks(s) && s.open && s.state.WAITING_ACK_MAIN_MODE? && outcome != Success
    ensures Talks(Close(HandleGenericErrors(s, outcome, SENDING_REQ_MAIN_MODE)))
  {
    var t := HandleGenericErrors(s, outcome, SENDING_REQ_MAIN_MODE);
    CloseTalks(s);
    CloseTalks(s.(timeouts := s.timeouts + 1));
    hide PhaseAfter;
    CloseTalks(t);
  }

  lemma FaultTalks(s: Session, outcome: Outcome)
    requires Talks(s) && outcome != Success && !s.state.STARTING? && (s.state.STOPPED? ==> !s.open)
    requires !s.open ==> s.state.STOPPED? || s.state.SENDING_ARCHIVE_PAGE_ANSWER?
    ensures Talks(OnFault(s, outcome))
  {
    assert s.open && s.state.WAITING_ACK_TIME_SET? ==> PhaseAfter(s.trace).Idle?;
    CloseTalks(s);
    hide Talks, PhaseAfter, HandleGenericErrors, RetryAfterTimeout, Restart, Close, WaitForNextMeasure, TimeSet;
    if s.open {
      match s.state
      case WAITING_ACK_MAIN_MODE => MainModeTalks(s, outcome);
      case WAITING_ACK_TIME_SET => WaitTalks(s);
      case WAITING_NEXT_MEASURE_TICK => TickTalks(s);
      case _ =>
        if RestartOf(s.state) != STOPPED {
          RetryFaultTalks(s);
        }
    }
  }

  lemma RetryFaultTalks(s: Session)
    requires Talks(s) && s.open && RestartOf(s.state) != STOPPED
    ensures Talks(RetryAfterTimeout(s, RestartOf(s.state)))
  {
    hide Talks, RetryAfterTimeout, RetryAfterError;
    RetryTalks(s, RestartOf(s.state));
  }

  lemma StepTalks(s: Session, e: Event)
    requires Inv(s) && Talks(s)
    ensures Talks(Step(s, e))
  {
    assert !s.state.STARTING? && (s.state.STOPPED? ==> !s.open)
      && (!s.open ==> s.state.STOPPED? || s.state.SENDING_ARCHIVE_PAGE_ANSWER?)
      && (s.pending.Flush? ==> s.open && IsRestart(s.pending.restart) && RestartOf(s.state) == s.pending.restart)
      by { hide ReadAll; }
    hide Inv;
    if Enabled(s, e) {
      EventTalks(s, e);
    }
  }

  lemma DoneTalks(s: Session, input: Input)
    requires Talks(s) && Enabled(s, Done(input)) && !s.state.STARTING? && !s.state.STOPPED?
    ensures Talks(Step(s, Done(input)))
  {
    hide Talks, OnSuccess, OnFault, Restart, Close, IsLineEnd, ReadsAck;
    var t := if ReadsAck(s.state) then s.(pending := Nothing, ack := input.ack) else s.(pending := Nothing);
    SameTalk(s, t);
    SameTalk(s, Await(t));
    SuccessTalks(t, input);
  }

  lemma BrokenTalks(s: Session, e: Event)
    requires Talks(s) && Enabled(s, e) && (e.Failed? || e.Deadline?)
    requires !s.state.STARTING? && (s.state.STOPPED? ==> !s.open)
    requires !s.open ==> s.state.STOPPED? || s.state.SENDING_ARCHIVE_PAGE_ANSWER?
    ensures Talks(Step(s, e))
  {
    hide Talks, OnSuccess, OnFault, Restart, Close, IsLineEnd, ReadsAck;
    var t := s.(pending := Nothing, timeouts := if e.Failed? then s.timeouts else s.timeouts + 1);
    SameTalk(s, t);
    FaultTalks(t, if e.Failed? then Broken else TimedOut);
  }

  lemma EventTalks(s: Session, e: Event)
    requires Talks(s) && Enabled(s, e)
    requires !s.state.STARTING? && (s.state.STOPPED? ==> !s.open)
    requires !s.open ==> s.state.STOPPED? || s.state.SENDING_ARCHIVE_PAGE_ANSWER?
    requires s.pending.Flush? ==> s.open && IsRestart(s.pending.restart) && RestartOf(s.state) == s.pending.restart
    ensures Talks(Step(s, e))
  {
    hide Talks, OnSuccess, OnFault, Restart, Close, IsRestart, RestartOf, Swallowed;
    match e
    case Done(input) => DoneTalks(s, input);
    case Failed => BrokenTalks(s, e);
    case Deadline => BrokenTalks(s, e);
    case FlushOver =>
      SameTalk(s, s.(pending := Nothing));
      RestartTalks(s.(pending := Nothing), s.pending.restart);
    case SetTimeDue => SameTalk(s, s.(setTimeRequested := true, setTimeArmed := false));
    case StopRequest => CloseAnyTalks(s);
  }

  lemma CloseAnyTalks(s: Session)
    requires Talks(s) && (s.state.STOPPED? ==> !s.open)
    ensures Talks(Close(s))
  {
    assert s.open ==> !PhaseOf(s.state).Over? && !PhaseOf(s.state).Wrong?;
    hide PhaseAfter, PhaseOf, Close;
    CloseTalks(s);
  }

  lemma {:induction false} RunTalks(s: Session, events: seq<Event>)
    requires Inv(s) && Talks(s)
    ensures Talks(Run(s, events))
  {
    hide Inv, Talks, Step;
    if events == [] {
    } else {
      var n := |events| - 1;
      RunTalks(s, events[..n]);
      RunKeeps(s, events[..n]);
      StepTalks(Run(s, events[..n]), events[n]);
    }
  }

  /** In every run, whatever happens, the log is a word of the automaton: requests follow
      one another in the order of the protocol, the setting of the clock only the
      configuration or a download, archive parameters only an archive request, pages only
      an announced count, a job only a completed download, and nothing the closing of the
      socket. */
  lemma EveryRunIsAConversation(now: int, hasPublisher: bool, events: seq<Event>)
    ensures var s := Run(Started(now, hasPublisher), events);
      && !PhaseAfter(s.trace).Wrong?
      && (s.open ==> InPhase(PhaseAfter(s.trace), s.state))
      && (!s.open <==> PhaseAfter(s.trace).Over?)
  {
    var s := Started(now, hasPublisher);
    StartedTalks(now, hasPublisher);
    StartedInv(now, hasPublisher);
    hide Inv, Run, Started, PhaseAfter, Talks;
    RunTalks(s, events);
    RunKeeps(s, events);
    TalksMeans(Run(s, events));
  }

  lemma StartedTalks(now: int, hasPublisher: bool)
    ensures Talks(Started(now, hasPublisher))
  {
    PhaseThen(Trace.Start(now / SECOND), Sent(Echo));
  }

  lemma TalksMeans(s: Session)
    requires Talks(s) && Inv(s)
    ensures !PhaseAfter(s.trace).Wrong? && (s.open ==> InPhase(PhaseAfter(s.trace), s.state))
    ensures !s.open <==> PhaseAfter(s.trace).Over?
  {
    assert s.open ==> !s.state.STOPPED? by { hide ReadAll; }
    hide Inv, PhaseAfter;
  }

  /** After a download that is not followed by the setting of the clock, the next tick asks
      for the archive: the log of a completed download may go on either way. */
  lemma ArchiveFollowsADownload(s: Session, input: Input, now: int)
    requires s.open && !s.setTimeRequested
    ensures var t := DownloadOver(s, now);
      var u := OnSuccess(OnSuccess(OnFault(t, TimedOut), input), input);
      && t.state.WAITING_NEXT_MEASURE_TICK?
      && u.trace == Then(Then(t.trace, Sent(Echo)), Sent(GetArchive))
  {
    var t := DownloadOver(s, now);
    OverWaits(s, now);
    hide DownloadOver, OnSuccess;
    var woken := OnFault(t, TimedOut);
    OnRequest(woken, input);
    OnRequest(OnSuccess(woken, input), input);
  }

  lemma OverWaits(s: Session, now: int)
    requires !s.setTimeRequested
    ensures var t := DownloadOver(s, now);
      t.state.WAITING_NEXT_MEASURE_TICK? && t.open == s.open
  {
    hide Log;
    var t := Log(s.(lastArchive := s.newest), Completed);
    LogFrame(s.(lastArchive := s.newest), Completed);
    LogFrame(t, JobPublished(t.oldest, t.newest));
  }
}

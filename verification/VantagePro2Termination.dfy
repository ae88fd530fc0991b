/** Every cycle of the protocol ends: a session reaches the wait for the next measurement,
    or stops, after a bounded number of handled events. The events that are not handled
    have no bound: see `ErrorsAreSwallowedForEver`. */
module VantagePro2Termination {
  import opened VantagePro2ArchivePages
  import opened VantagePro2Protocol
  import opened VantagePro2Runs

  /** How far a state is from the end of its cycle, on the way without faults. */
  function Rank(st: State, pages: int): nat {
    var p := if pages < 0 then 0 else if pages < 0x1_0000 then pages else 0xffff;
    match st
    case WAITING_NEXT_MEASURE_TICK | STOPPED => 0
    case WAITING_ACK_TIME_SET | SENDING_ABORT_ARCHIVE_DOWNLOAD => 1
    case SENDING_SETTIME_PARAMS => 2
    case WAITING_ACK_SETTIME => 3
    case SENDING_SETTIME => 4
    case WAITING_ECHO_SETTIME => 5
    case SENDING_WAKE_UP_SETTIME => 6
    case WAITING_ARCHIVE_PAGE => 6 + 2 * p
    case SENDING_ACK_ARCHIVE_DOWNLOAD | SENDING_ARCHIVE_PAGE_ANSWER => 7 + 2 * p
    case WAITING_ARCHIVE_NB_PAGES => 131080
    case WAITING_ACK_ARCHIVE_PARAMS => 131081
    case SENDING_ARCHIVE_PARAMS => 131082
    case WAITING_ACK_ARCHIVE => 131083
    case SENDING_REQ_ARCHIVE => 131084
    case WAITING_ECHO_ARCHIVE => 131085
    case SENDING_WAKE_UP_ARCHIVE => 131086
    case WAITING_DATA_TIMEZONE => 131087
    case WAITING_ACK_TIMEZONE => 131088
    case SENDING_REQ_TIMEZONE => 131089
    case WAITING_ACK_MAIN_MODE => 131090
    case SENDING_REQ_MAIN_MODE => 131091
    case WAITING_DATA_STATION => 131092
    case WAITING_ACK_STATION => 131093
    case SENDING_REQ_STATION => 131094
    case WAITING_ECHO_STATION => 131095
    case SENDING_WAKE_UP_STATION => 131096
    case STARTING => 131097
  }

  const LAP := 262200

  /** A pause before a retry comes just before the state it restarts. */
  function Position(s: Session): (n: nat)
    ensures n < LAP
  {
    if s.pending.Flush? then 2 * Rank(s.pending.restart, s.pagesLeft) + 1 else 2 * Rank(s.state, s.pagesLeft)
  }

  /** Faults that the session can still survive, never exhausted before it stops. */
  function Budget(s: Session): nat {
    (if s.timeouts <= 5 then 5 - s.timeouts else 0) + (if s.errors <= 101 then 101 - s.errors else 0)
  }

  predicate Settled(s: Session) {
    s.state.WAITING_NEXT_MEASURE_TICK? || s.state.STOPPED?
  }

  function Measure(s: Session): nat {
    if Settled(s) then 0 else 1 + Budget(s) * LAP + Position(s)
  }

  /** The events that the state machine handles: not the clock-setting timer, which
      only raises a flag, and not the line ends skipped before an acknowledgement. */
  predicate Handled(s: Session, e: Event) {
    Enabled(s, e) && !Swallowed(s, e) && !e.SetTimeDue?
  }

  /** What a handled event achieves: the cycle is over, or a fault has been paid for, or
      the session is nearer to the end of the cycle. */
  predicate Advances(s: Session, t: Session) {
    Settled(t) || Budget(t) < Budget(s) || (Budget(t) == Budget(s) && Position(t) < Position(s))
  }

  lemma Lexicographic(s: Session, t: Session)
    requires !Settled(s) && Advances(s, t)
    ensures Measure(t) < Measure(s)
  {
    if !Settled(t) && Budget(t) < Budget(s) {
      assert (Budget(t) + 1) * LAP <= Budget(s) * LAP;
    }
  }

  // ---------------------------------------------------------------------- success events

  lemma Nearer(s: Session, t: Session)
    requires s.pending == Nothing && !t.pending.Flush? && t.timeouts == s.timeouts && t.errors == s.errors
    requires Rank(t.state, t.pagesLeft) < Rank(s.state, s.pagesLeft)
    ensures Advances(s, t)
  {
    hide Rank;
  }

  lemma SettledAdvances(s: Session, t: Session)
    requires Settled(t)
    ensures Advances(s, t)
  {
  }

  lemma WaitAdvances(s: Session, t: Session)
    ensures Advances(s, WaitForNextMeasure(t)) && Advances(s, TimeSet(t))
  {
    hide Rank;
  }

  lemma MoveAdvances(s: Session, next: State, m: Message)
    requires s.pending == Nothing && Rank(next, s.pagesLeft) < Rank(s.state, s.pagesLeft)
    ensures Advances(s, Await(Goto(s, next)))
    ensures Advances(s, Send(Goto(s, next), m))
  {
    hide Rank;
  }

  lemma RetryAdvances(s: Session, restart: State)
    requires s.errors <= 100
    ensures Advances(s, RetryAfterError(s, restart))
    ensures Advances(s, Close(s))
  {
    hide Rank, Position;
  }

  lemma StationAdvances(s: Session, input: Input)
    requires s.state.WAITING_DATA_STATION? && s.pending == Nothing && s.errors <= 100
    ensures Advances(s, StationIdentified(s, input))
  {
    if input.coordsValid && input.station.Known? {
      MoveAdvances(s, SENDING_REQ_MAIN_MODE, MainMode);
    } else {
      RetryAdvances(s, SENDING_REQ_STATION);
    }
  }

  lemma TimezoneAdvances(s: Session, input: Input)
    requires s.state.WAITING_DATA_TIMEZONE? && s.pending == Nothing && s.errors <= 100
    ensures Advances(s, TimezoneReceived(s, input))
  {
    hide Rank, Advances, Log, RetryAfterError;
    var t := s.(beginning := s.lastArchive, mostRecent := s.lastArchive);
    var u := Log(t, Prepared(s.lastArchive));
    RetryAdvances(s, SENDING_REQ_TIMEZONE);
    TimezoneRank(s.pagesLeft);
    LogFrame(t, Prepared(s.lastArchive));
    LogFrame(Goto(u, SENDING_WAKE_UP_ARCHIVE), Sent(Echo));
    LogFrame(Goto(u, SENDING_WAKE_UP_SETTIME), Sent(Echo));
    if s.coordsValid {
      Nearer(s, TimezoneReceived(s, input));
    }
  }

  lemma SizeRank(before: int, pages: int)
    ensures Rank(SENDING_ACK_ARCHIVE_DOWNLOAD, pages) < Rank(WAITING_ARCHIVE_NB_PAGES, before)
    ensures Rank(SENDING_ABORT_ARCHIVE_DOWNLOAD, pages) < Rank(WAITING_ARCHIVE_NB_PAGES, before)
  {
  }

  lemma SizeAdvances(s: Session, input: Input)
    requires s.state.WAITING_ARCHIVE_NB_PAGES? && s.pending == Nothing
    ensures Advances(s, SizeReceived(s, input))
  {
    hide Rank, Advances, Log;
    var t := s.(pagesLeft := input.size.pages);
    SizeRank(s.pagesLeft, input.size.pages);
    LogFrame(t, Announced(input.size.pages));
    LogFrame(Goto(Log(t, Announced(input.size.pages)), SENDING_ACK_ARCHIVE_DOWNLOAD), Sent(Ack));
    LogFrame(Goto(t, SENDING_ABORT_ARCHIVE_DOWNLOAD), Sent(Abort));
    Nearer(s, SizeReceived(s, input));
  }

  lemma ValidPageAdvances(s: Session, input: Input)
    requires s.state.WAITING_ARCHIVE_PAGE? && s.pending == Nothing && 0 < s.pagesLeft < 0x1_0000
    ensures Advances(s, ValidPage(s, input))
  {
    hide Rank, Advances, ValidPage;
    PageRank(s.pagesLeft);
    ValidPageFrame(s, input);
    Nearer(s, ValidPage(s, input));
  }

  lemma ValidPageFrame(s: Session, input: Input)
    ensures var t := ValidPage(s, input);
      && t.state.SENDING_ARCHIVE_PAGE_ANSWER? && t.pending.Operation? && t.pagesLeft == s.pagesLeft - 1
      && t.timeouts == s.timeouts && t.errors == s.errors
  {
    hide Store, LogInserted, PageStored, Log;
    var r := Store(input.page.points, input.db, s.beginning, s.mostRecent, input.clock);
    var t := LogStore(s.(mostRecent := r.mostRecent), r.inserted, r.ok);
    LogFrame(s.(mostRecent := r.mostRecent, trace := LogInserted(s.trace, r.inserted)), Batched(r.inserted));
    PageStoredIs(t, input.page.points, input.clock);
    LogFrame(t, Closed);
    var u := if r.ok then PageStored(t, input.page.points, input.clock) else Close(t);
    LogFrame(Goto(u.(pagesLeft := u.pagesLeft - 1), SENDING_ARCHIVE_PAGE_ANSWER), Sent(Ack));
  }

  lemma PageRank(pages: int)
    requires 0 < pages < 0x1_0000
    ensures Rank(SENDING_ARCHIVE_PAGE_ANSWER, pages - 1) < Rank(WAITING_ARCHIVE_PAGE, pages)
  {
  }

  lemma TimezoneRank(pages: int)
    ensures Rank(SENDING_WAKE_UP_SETTIME, pages) < Rank(WAITING_DATA_TIMEZONE, pages)
    ensures Rank(SENDING_WAKE_UP_ARCHIVE, pages) < Rank(WAITING_DATA_TIMEZONE, pages)
  {
  }

  lemma InvalidPageAdvances(s: Session)
    requires s.errors <= 100
    ensures Advances(s, InvalidPage(s))
  {
    hide Rank, Position;
  }

  lemma AnswerAdvances(s: Session, now: int)
    requires Downloading(s.state) && s.pending == Nothing && 0 <= s.pagesLeft < 0x1_0000
    requires !s.state.WAITING_ARCHIVE_PAGE?
    ensures Advances(s, PageAnswered(s, now))
  {
    AnswerRank(s.state, s.pagesLeft);
    hide Rank, Advances, DownloadOver;
    if s.pagesLeft != 0 {
      Nearer(s, PageAnswered(s, now));
    } else {
      DownloadOverFrame(s, now);
      if s.setTimeRequested {
        Nearer(s, DownloadOver(s, now));
      } else {
        SettledAdvances(s, DownloadOver(s, now));
      }
    }
  }

  lemma AnswerRank(st: State, pages: int)
    requires st.SENDING_ACK_ARCHIVE_DOWNLOAD? || st.SENDING_ARCHIVE_PAGE_ANSWER?
    ensures Rank(WAITING_ARCHIVE_PAGE, pages) < Rank(st, pages)
    ensures Rank(SENDING_WAKE_UP_SETTIME, pages) < Rank(st, pages)
  {
  }

  lemma DownloadOverFrame(s: Session, now: int)
    ensures var t := DownloadOver(s, now);
      if s.setTimeRequested then
        && t.state.SENDING_WAKE_UP_SETTIME? && t.pending.Operation? && t.pagesLeft == s.pagesLeft
        && t.timeouts == s.timeouts && t.errors == s.errors
      else t.state.WAITING_NEXT_MEASURE_TICK?
  {
    hide Log;
    var t := Log(s.(lastArchive := s.newest), Completed);
    var u := Log(t, JobPublished(t.oldest, t.newest));
    LogFrame(s.(lastArchive := s.newest), Completed);
    LogFrame(t, JobPublished(t.oldest, t.newest));
    LogFrame(Goto(t, SENDING_WAKE_UP_SETTIME), Sent(Echo));
    LogFrame(Goto(u, SENDING_WAKE_UP_SETTIME), Sent(Echo));
  }

  lemma OpeningAdvances(s: Session, input: Input)
    requires s.pending == Nothing && s.errors <= 100 && Rank(s.state, s.pagesLeft) > 131086
    ensures Advances(s, OnSuccess(s, input))
  {
    hide Advances, StationIdentified, TimezoneReceived, RetryAfterError, Await, Goto, Send;
    match s.state
    case STARTING => MoveAdvances(s, SENDING_WAKE_UP_STATION, Echo);
    case SENDING_WAKE_UP_STATION => MoveAdvances(s, WAITING_ECHO_STATION, Echo);
    case WAITING_ECHO_STATION => MoveAdvances(s, SENDING_REQ_STATION, GetStation);
    case SENDING_REQ_STATION => MoveAdvances(s, WAITING_ACK_STATION, Echo);
    case WAITING_ACK_STATION =>
      RetryAdvances(s, SENDING_REQ_STATION);
      MoveAdvances(s, WAITING_DATA_STATION, Echo);
    case WAITING_DATA_STATION => StationAdvances(s, input);
    case SENDING_REQ_MAIN_MODE => MoveAdvances(s, WAITING_ACK_MAIN_MODE, Echo);
    case WAITING_ACK_MAIN_MODE => MoveAdvances(s, SENDING_REQ_TIMEZONE, GetTimezone);
    case SENDING_REQ_TIMEZONE => MoveAdvances(s, WAITING_ACK_TIMEZONE, Echo);
    case WAITING_ACK_TIMEZONE =>
      RetryAdvances(s, SENDING_REQ_TIMEZONE);
      MoveAdvances(s, WAITING_DATA_TIMEZONE, Echo);
    case WAITING_DATA_TIMEZONE => TimezoneAdvances(s, input);
  }

  lemma ArchiveAdvances(s: Session, input: Input)
    requires s.pending == Nothing && s.errors <= 100 && s.pagesLeft < 0x1_0000
    requires Downloading(s.state) ==> s.pagesLeft >= 0
    requires s.state.WAITING_ARCHIVE_PAGE? ==> s.pagesLeft > 0
    requires Downloading(s.state) || 131080 <= Rank(s.state, s.pagesLeft) <= 131086
    ensures Advances(s, OnSuccess(s, input))
  {
    hide Advances, SizeReceived, ValidPage, InvalidPage, PageAnswered, RetryAfterError, Close, Await, Goto, Send;
    match s.state
    case SENDING_WAKE_UP_ARCHIVE => MoveAdvances(s, WAITING_ECHO_ARCHIVE, Echo);
    case WAITING_ECHO_ARCHIVE => MoveAdvances(s, SENDING_REQ_ARCHIVE, GetArchive);
    case SENDING_REQ_ARCHIVE => MoveAdvances(s, WAITING_ACK_ARCHIVE, Echo);
    case WAITING_ACK_ARCHIVE =>
      RetryAdvances(s, SENDING_REQ_ARCHIVE);
      MoveAdvances(s, SENDING_ARCHIVE_PARAMS, ArchiveParams(s.lastArchive));
    case SENDING_ARCHIVE_PARAMS => MoveAdvances(s, WAITING_ACK_ARCHIVE_PARAMS, Echo);
    case WAITING_ACK_ARCHIVE_PARAMS =>
      RetryAdvances(s, STOPPED);
      MoveAdvances(s, WAITING_ARCHIVE_NB_PAGES, Echo);
    case WAITING_ARCHIVE_NB_PAGES => SizeAdvances(s, input);
    case WAITING_ARCHIVE_PAGE =>
      ValidPageAdvances(s, input);
      InvalidPageAdvances(s);
    case SENDING_ACK_ARCHIVE_DOWNLOAD | SENDING_ARCHIVE_PAGE_ANSWER => AnswerAdvances(s, input.now);
  }

  lemma ClosingAdvances(s: Session, input: Input)
    requires s.pending == Nothing && s.errors <= 100 && !Settled(s)
    requires !Downloading(s.state) && Rank(s.state, s.pagesLeft) <= 6
    ensures Advances(s, OnSuccess(s, input))
  {
    WaitAdvances(s, s);
    hide Advances, WaitForNextMeasure, TimeSet, RetryAfterError, Await, Goto, Send;
    match s.state
    case SENDING_WAKE_UP_SETTIME => MoveAdvances(s, WAITING_ECHO_SETTIME, Echo);
    case WAITING_ECHO_SETTIME => MoveAdvances(s, SENDING_SETTIME, SetTime);
    case SENDING_SETTIME => MoveAdvances(s, WAITING_ACK_SETTIME, Echo);
    case WAITING_ACK_SETTIME =>
      RetryAdvances(s, SENDING_SETTIME);
      MoveAdvances(s, SENDING_SETTIME_PARAMS, SetTimeParams);
    case SENDING_SETTIME_PARAMS => MoveAdvances(s, WAITING_ACK_TIME_SET, Echo);
    case WAITING_ACK_TIME_SET =>
    case SENDING_ABORT_ARCHIVE_DOWNLOAD =>
  }

  lemma SuccessAdvances(s: Session, input: Input)
    requires Core(s) && WithinBudget(s) && s.open && s.pending == Nothing && !Settled(s)
    ensures Advances(s, OnSuccess(s, input))
  {
    assert s.errors <= 100 && s.pagesLeft < 0x1_0000 && (Downloading(s.state) ==> s.pagesLeft >= 0)
        && (s.state.WAITING_ARCHIVE_PAGE? ==> s.pagesLeft > 0) by { hide ReadAll; }
    hide Core, OnSuccess, Advances;
    if Downloading(s.state) || 131080 <= Rank(s.state, s.pagesLeft) <= 131086 {
      ArchiveAdvances(s, input);
    } else if Rank(s.state, s.pagesLeft) > 131086 {
      OpeningAdvances(s, input);
    } else {
      ClosingAdvances(s, input);
    }
  }

  // ------------------------------------------------------------------------ other events

  /** A fault is paid for by an error or two timeouts, and a pause by its restart. */
  lemma FaultAdvances(s: Session, outcome: Outcome)
    requires s.pending == Nothing && outcome != Success && !Settled(s)
    requires s.timeouts <= 5 && !s.state.STARTING?
    ensures var t := OnFault(s, outcome);
      Settled(t) || (t.errors == s.errors && t.timeouts == s.timeouts + 1 < 5)
  {
    hide Log, RestartOf;
    LogFrame(s, Closed);
    LogFrame(s.(timeouts := s.timeouts + 1), Closed);
    if s.state.WAITING_ACK_TIME_SET? || s.state.WAITING_ACK_MAIN_MODE? {
    } else {
      OnExchangeFault(s, outcome);
      hide OnFault;
    }
  }

  lemma FlushAdvances(s: Session)
    requires s.pending.Flush? && IsRestart(s.pending.restart)
    ensures Advances(s, Restart(s.(pending := Nothing), s.pending.restart))
  {
    hide Rank;
  }

  lemma DoneDecreases(s: Session, input: Input)
    requires Inv(s) && !Settled(s) && Handled(s, Done(input))
    ensures Measure(Step(s, Done(input))) < Measure(s)
  {
    var t := if ReadsAck(s.state) then s.(pending := Nothing, ack := input.ack) else s.(pending := Nothing);
    AckReadKeeps(s, input.ack);
    AckReadKeeps(s, s.ack);
    hide Core, WithinBudget, OnSuccess, Rank;
    SuccessAdvances(t, input);
    Lexicographic(t, OnSuccess(t, input));
  }

  lemma FaultDecreases(s: Session, t: Session, outcome: Outcome)
    requires Inv(s) && !Settled(s) && outcome != Success
    requires t == s.(pending := Nothing, timeouts := t.timeouts) && s.timeouts <= t.timeouts <= s.timeouts + 1
    ensures Measure(OnFault(t, outcome)) < Measure(s)
  {
    assert !s.state.STARTING? && s.timeouts <= 4 by { hide ReadAll; }
    FaultAdvances(t, outcome);
    hide Inv, OnFault, Rank, Position;
    Lexicographic(s, OnFault(t, outcome));
  }

  lemma StepDecreases(s: Session, e: Event)
    requires Inv(s) && !Settled(s) && Handled(s, e)
    ensures Measure(Step(s, e)) < Measure(s)
  {
    match e
    case Done(input) => DoneDecreases(s, input);
    case Failed =>
      FaultDecreases(s, s.(pending := Nothing), Broken);
      hide Inv, OnFault, Measure;
    case Deadline =>
      FaultDecreases(s, s.(pending := Nothing, timeouts := s.timeouts + 1), TimedOut);
      hide Inv, OnFault, Measure;
    case FlushOver =>
      FlushAdvances(s);
      hide Core, WithinBudget, Rank;
      Lexicographic(s, Step(s, e));
    case StopRequest =>
      hide Core, WithinBudget, Rank;
      Lexicographic(s, Step(s, e));
  }

  /** What is not handled costs nothing. */
  lemma StepKeepsMeasure(s: Session, e: Event)
    requires !Handled(s, e)
    ensures Measure(Step(s, e)) == Measure(s)
  {
    hide Rank;
  }

  // ------------------------------------------------------------------------- whole runs

  function HandledCount(s: Session, events: seq<Event>): nat {
    if events == [] then 0
    else
      var n := |events| - 1;
      HandledCount(s, events[..n]) + if Handled(Run(s, events[..n]), events[n]) then 1 else 0
  }

  predicate NeverSettled(s: Session, events: seq<Event>) {
    forall n :: 0 <= n < |events| ==> !Settled(Run(s, events[..n]))
  }

  /** Along any run that has not settled, each event handled takes at least one unit of
      the measure. */
  lemma {:induction false} MeasurePaysForEvents(s: Session, events: seq<Event>)
    requires Inv(s) && NeverSettled(s, events)
    ensures HandledCount(s, events) + Measure(Run(s, events)) <= Measure(s)
  {
    if events == [] {
    } else {
      var n := |events| - 1;
      var before := events[..n];
      assert forall k :: 0 <= k < n ==> before[..k] == events[..k];
      assert events[..n] == before;
      MeasurePaysForEvents(s, before);
      RunKeeps(s, before);
      hide Inv, Step, Measure, Settled, Handled;
      if Handled(Run(s, before), events[n]) {
        StepDecreases(Run(s, before), events[n]);
      } else {
        StepKeepsMeasure(Run(s, before), events[n]);
      }
    }
  }

  /** A cycle ends: a run whose events include more handled ones than this bound has
      reached the wait for the next measurement, or has stopped, on the way. The
      bound does not depend on the station, the network or the database. */
  lemma CycleEnds(s: Session, events: seq<Event>)
    requires Inv(s) && HandledCount(s, events) > 107 * LAP
    ensures exists n :: 0 <= n < |events| && Settled(Run(s, events[..n]))
  {
    if NeverSettled(s, events) {
      MeasurePaysForEvents(s, events);
      hide Inv, Run;
    }
  }

  /** The livelock: once a line end has been read in place of an acknowledgement, any number
      of I/O errors leaves the session exactly as it is, reading again each time. */
  lemma {:induction false} ErrorsAreSwallowedForEver(s: Session, input: Input, n: nat)
    requires s.open && s.pending.Operation? && ReadsAck(s.state) && IsLineEnd(input.ack)
    ensures var t := Step(s, Done(input));
      && t.open && t.pending.Operation? && t.state == s.state
      && Run(t, seq(n, _ => Failed)) == t && HandledCount(t, seq(n, _ => Failed)) == 0
  {
    var errors := seq(n, _ => Failed);
    if n == 0 {
    } else {
      ErrorsAreSwallowedForEver(s, input, n - 1);
      assert errors[..n - 1] == seq(n - 1, _ => Failed);
    }
  }
}

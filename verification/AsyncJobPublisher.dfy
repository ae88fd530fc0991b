/** The debouncer of recomputation jobs: the requests made for a station are merged
    until its timer fires, and published together. */
module AsyncJobPublishers {
  import opened Common

  const DEBOUNCE := 60

  type Station = nat

  /** An entry of the map: the interval to recompute and the expiry of the timer, as long
      as it is armed. */
  datatype Pending = Pending(begin: int, end: int, deadline: Option<int>)

  datatype Job =
    | Minmax(station: Station, begin: int, end: int)
    | AnomalyMonitoring(station: Station, begin: int, end: int)

  datatype Publisher = Publisher(debouncing: map<Station, Pending>, jobs: seq<Job>)

  /** What the jobs database does: both jobs go through, or one of them throws. */
  datatype Answer = Ok | MinmaxThrows | AnomalyThrows

  /** A request may come from any thread, a timer may fire at any moment: the mutex only
      puts them in some order. */
  datatype Event =
    | Request(station: Station, begin: int, end: int, now: int)
    | Fired(station: Station, now: int, answer: Answer)

  // --------------------------------------------------------------------- what a step does

  predicate Accepted(e: Event) {
    e.Request? && e.begin <= e.end && Day(e.begin) < Day(e.now)
  }

  function Merge(p: Publisher, station: Station, begin: int, end: int, now: int): Publisher {
    var deadline := Some(now + DEBOUNCE);
    var entry :=
      if station !in p.debouncing then Pending(begin, end, deadline)
      else
        var q := p.debouncing[station];
        Pending(if begin < q.begin then begin else q.begin, if end > q.end then end else q.end, deadline);
    p.(debouncing := p.debouncing[station := entry])
  }

  predicate PastEnough(q: Pending, now: int) {
    Day(q.begin) < Day(now)
  }

  function Published(station: Station, q: Pending, answer: Answer): seq<Job> {
    match answer
    case Ok => [Minmax(station, q.begin, q.end), AnomalyMonitoring(station, q.begin, q.end)]
    case MinmaxThrows => []
    case AnomalyThrows => [Minmax(station, q.begin, q.end)]
  }

  /** The timer is cancelled before the jobs are published, and an exception leaves the
      entry without it. */
  function Fire(p: Publisher, station: Station, now: int, answer: Answer): Publisher {
    if station !in p.debouncing then p
    else
      var q := p.debouncing[station];
      if !PastEnough(q, now) then p.(debouncing := p.debouncing - {station})
      else
        var jobs := p.jobs + Published(station, q, answer);
        if answer.Ok? then Publisher(p.debouncing - {station}, jobs)
        else Publisher(p.debouncing[station := q.(deadline := None)], jobs)
  }

  function Step(p: Publisher, e: Event): Publisher {
    match e
    case Request(station, begin, end, now) => if Accepted(e) then Merge(p, station, begin, end, now) else p
    case Fired(station, now, answer) => Fire(p, station, now, answer)
  }

  function Run(events: seq<Event>): Publisher {
    if events == [] then Publisher(map[], [])
    else Step(Run(events[..|events| - 1]), events[|events| - 1])
  }

  // ------------------------------------------------------------------------- the publisher

  class AsyncJobPublisher {
    var debouncing: map<Station, Pending>
    var jobs: seq<Job>

    ghost function View(): Publisher
      reads this
    {
      Publisher(debouncing, jobs)
    }

    constructor ()
      ensures View() == Run([])
    {
      debouncing := map[];
      jobs := [];
    }

    method PublishJobsForPastDataInsertion(station: Station, begin: int, end: int, now: int)
      modifies this
      ensures View() == Step(old(View()), Request(station, begin, end, now))
    {
      var today := Day(now);
      if begin > end || Day(begin) >= today {
        return;
      }
      if station !in debouncing {
        debouncing := debouncing[station := Pending(begin, end, Some(now + DEBOUNCE))];
      } else {
        var entry := debouncing[station];
        if begin < entry.begin {
          entry := entry.(begin := begin);
        }
        if end > entry.end {
          entry := entry.(end := end);
        }
        debouncing := debouncing[station := entry.(deadline := Some(now + DEBOUNCE))];
      }
    }

    /** Returns false where the original lets an exception of the database escape. */
    method DoPublish(station: Station, now: int, answer: Answer) returns (completed: bool)
      modifies this
      ensures View() == Step(old(View()), Fired(station, now, answer))
      ensures !completed <==>
        station in old(debouncing) && PastEnough(old(debouncing)[station], now) && !answer.Ok?
    {
      if station in debouncing {
        var entry := debouncing[station];
        debouncing := debouncing[station := entry.(deadline := None)];
        if Day(entry.begin) < Day(now) {
          if answer.MinmaxThrows? {
            return false;
          }
          jobs := jobs + [Minmax(station, entry.begin, entry.end)];
          if answer.AnomalyThrows? {
            return false;
          }
          jobs := jobs + [AnomalyMonitoring(station, entry.begin, entry.end)];
        }
        debouncing := debouncing - {station};
      }
      completed := true;
    }
  }

  // ---------------------------------------------------- what the history says is waiting

  /** None of the requests begins on a day that is over. */
  predicate TooRecent(requests: seq<Event>, now: int) {
    forall r :: r in requests && r.Request? ==> Day(r.begin) >= Day(now)
  }

  /** The requests accepted for a station since the last time that its jobs were both
      published, or that all of them were too recent. */
  function Waiting(events: seq<Event>, station: Station): seq<Event> {
    if events == [] then []
    else
      var n := |events| - 1;
      var waiting, e := Waiting(events[..n], station), events[n];
      if e.station != station then waiting
      else if e.Request? then if Accepted(e) then waiting + [e] else waiting
      else if e.answer.Ok? || TooRecent(waiting, e.now) then [] else waiting
  }

  /** The smallest interval that contains all the requests. */
  predicate IsHull(requests: seq<Event>, begin: int, end: int) {
    && (forall r :: r in requests ==> Accepted(r) && begin <= r.begin && r.end <= end)
    && (exists r :: r in requests && r.Request? && r.begin == begin)
    && (exists r :: r in requests && r.Request? && r.end == end)
  }

  /** Whether the jobs database has thrown since the last request accepted. */
  predicate TimerLost(events: seq<Event>, station: Station) {
    if events == [] then false
    else
      var n := |events| - 1;
      var e := events[n];
      if e.station != station then TimerLost(events[..n], station)
      else if e.Request? then !Accepted(e) && TimerLost(events[..n], station)
      else !e.answer.Ok? && !TooRecent(Waiting(events[..n], station), e.now)
  }

  predicate Agrees(p: Publisher, station: Station, waiting: seq<Event>, lost: bool) {
    && (station in p.debouncing <==> waiting != [])
    && (station in p.debouncing ==>
        var q := p.debouncing[station];
        && IsHull(waiting, q.begin, q.end)
        && q.deadline == if lost then None else Some(waiting[|waiting| - 1].now + 60))
  }

  lemma HullIsPastEnough(waiting: seq<Event>, q: Pending, now: int)
    requires IsHull(waiting, q.begin, q.end)
    ensures PastEnough(q, now) <==> !TooRecent(waiting, now)
  {
  }

  lemma RequestAgrees(p: Publisher, e: Event, waiting: seq<Event>, lost: bool)
    requires Agrees(p, e.station, waiting, lost) && Accepted(e)
    ensures Agrees(Step(p, e), e.station, waiting + [e], false)
  {
  }

  lemma FiringAgrees(p: Publisher, e: Event, waiting: seq<Event>, lost: bool)
    requires Agrees(p, e.station, waiting, lost) && e.Fired?
    ensures var done := e.answer.Ok? || TooRecent(waiting, e.now);
      Agrees(Step(p, e), e.station, if done then [] else waiting, !done)
  {
    if waiting != [] {
      HullIsPastEnough(waiting, p.debouncing[e.station], e.now);
    }
    hide IsHull, PastEnough;
  }

  lemma OtherStations(p: Publisher, e: Event, station: Station)
    requires e.station != station
    ensures var q := Step(p, e);
      && (station in q.debouncing <==> station in p.debouncing)
      && (station in q.debouncing ==> q.debouncing[station] == p.debouncing[station])
  {
  }

  /** In every interleaving of requests and timers, for every station: something is
      pending exactly when accepted requests wait, and it is their hull; the timer expires
      a minute after the last of them, unless an exception has left the entry without. */
  lemma {:induction false} PendingIsHull(events: seq<Event>, station: Station)
    ensures Agrees(Run(events), station, Waiting(events, station), TimerLost(events, station))
  {
    if events == [] {
    } else {
      var n := |events| - 1;
      var e, p, w := events[n], Run(events[..n]), Waiting(events[..n], station);
      PendingIsHull(events[..n], station);
      hide IsHull, TooRecent, Accepted, Merge, Fire;
      if e.station != station {
        OtherStations(p, e, station);
      } else if e.Fired? {
        FiringAgrees(p, e, w, TimerLost(events[..n], station));
      } else if Accepted(e) {
        RequestAgrees(p, e, w, TimerLost(events[..n], station));
      }
    }
  }

  /** Each job is the hull of all the requests waiting when the timer fired: jobs are
      published unless all of the requests are too recent, and nothing else is. */
  lemma PublishedIsHull(events: seq<Event>, e: Event)
    ensures var before, after := Run(events), Run(events + [e]);
      var waiting := Waiting(events, e.station);
      if e.Request? || waiting == [] || TooRecent(waiting, e.now) then after.jobs == before.jobs
      else
        exists begin, end ::
          && IsHull(waiting, begin, end)
          && after.jobs == before.jobs
               + (if e.answer.MinmaxThrows? then [] else [Minmax(e.station, begin, end)])
               + if e.answer.Ok? then [AnomalyMonitoring(e.station, begin, end)] else []
  {
    assert (events + [e])[..|events|] == events;
    PendingIsHull(events, e.station);
    var waiting := Waiting(events, e.station);
    if e.Fired? && waiting != [] {
      var q := Run(events).debouncing[e.station];
      HullIsPastEnough(waiting, q, e.now);
      hide IsHull, TooRecent;
      assert IsHull(waiting, q.begin, q.end);
    }
  }

  // ------------------------------------------------------------------ no request is lost

  predicate ClockRuns(events: seq<Event>) {
    forall i, j :: 0 <= i < j < |events| ==> events[i].now <= events[j].now
  }

  lemma {:induction false} WaitingAreEvents(events: seq<Event>, station: Station)
    ensures forall r :: r in Waiting(events, station) ==> r in events && Accepted(r) && r.station == station
  {
    if events == [] {
    } else {
      WaitingAreEvents(events[..|events| - 1], station);
      assert events == events[..|events| - 1] + [events[|events| - 1]];
    }
  }

  /** While the clock does not go back, no waiting request is ever too recent: each was
      accepted because its first day was over. */
  lemma NeverTooRecent(events: seq<Event>, station: Station, now: int)
    requires ClockRuns(events) && Waiting(events, station) != []
    requires forall i :: 0 <= i < |events| ==> events[i].now <= now
    ensures !TooRecent(Waiting(events, station), now)
  {
  }

  /** The two jobs of a station, published one after the other, cover a request. */
  predicate Covers(jobs: seq<Job>, k: int, r: Event) {
    && r.Request? && 0 <= k && k + 1 < |jobs|
    && jobs[k] == Minmax(r.station, jobs[k].begin, jobs[k].end)
    && jobs[k + 1] == AnomalyMonitoring(r.station, jobs[k].begin, jobs[k].end)
    && jobs[k].begin <= r.begin && r.end <= jobs[k].end
  }

  predicate CoveredAfter(jobs: seq<Job>, m: nat, r: Event) {
    exists k :: m <= k < |jobs| && Covers(jobs, k, r)
  }

  lemma CoveredAt(jobs: seq<Job>, m: nat, k: nat, r: Event)
    requires k >= m && Covers(jobs, k, r)
    ensures CoveredAfter(jobs, m, r)
  {
  }

  lemma CoveredStays(jobs: seq<Job>, more: seq<Job>, m: nat, r: Event)
    requires jobs <= more && CoveredAfter(jobs, m, r)
    ensures CoveredAfter(more, m, r)
  {
    var k :| m <= k < |jobs| && Covers(jobs, k, r);
    assert Covers(more, k, r);
  }

  lemma JobsStay(p: Publisher, e: Event)
    ensures p.jobs <= Step(p, e).jobs
  {
  }

  /** Conservation: while the clock does not go back, each accepted request is waiting,
      inside the pending interval, or is inside jobs published after it. */
  lemma {:induction false} NoRequestIsLost(events: seq<Event>, i: nat)
    requires ClockRuns(events) && i < |events| && Accepted(events[i])
    ensures events[i] in Waiting(events, events[i].station)
         || CoveredAfter(Run(events).jobs, |Run(events[..i]).jobs|, events[i])
  {
    var n := |events| - 1;
    var r, e, before := events[i], events[n], events[..n];
    if i == n {
    } else {
      assert before[..i] == events[..i] && before[i] == r;
      NoRequestIsLost(before, i);
      hide CoveredAfter, Covers, Step, Accepted, TooRecent, Waiting;
      LastStep(events);
      JobsStay(Run(before), e);
      JobsGrow(before, i);
      var m := |Run(before[..i]).jobs|;
      if CoveredAfter(Run(before).jobs, m, r) {
        CoveredStays(Run(before).jobs, Run(events).jobs, m, r);
      } else if r !in Waiting(events, r.station) {
        NeverTooRecent(before, r.station, e.now);
        LastFiringCovers(events, r);
        CoveredAt(Run(events).jobs, m, |Run(before).jobs|, r);
      }
    }
  }

  lemma LastStep(events: seq<Event>)
    requires events != []
    ensures var n := |events| - 1; Run(events) == Step(Run(events[..n]), events[n])
  {
    hide Step;
  }

  lemma {:induction false} JobsGrow(events: seq<Event>, i: nat)
    requires i <= |events|
    ensures Run(events[..i]).jobs <= Run(events).jobs
  {
    if i == |events| {
      assert events[..i] == events;
    } else {
      var n := |events| - 1;
      JobsGrow(events[..n], i);
      assert events[..n][..i] == events[..i];
      JobsStay(Run(events[..n]), events[n]);
    }
  }

  lemma LastFiringCovers(events: seq<Event>, r: Event)
    requires events != [] && r.Request?
    requires var before := events[..|events| - 1];
      && r in Waiting(before, r.station) && r !in Waiting(events, r.station)
      && !TooRecent(Waiting(before, r.station), events[|events| - 1].now)
    ensures Covers(Run(events).jobs, |Run(events[..|events| - 1]).jobs|, r)
  {
    var n := |events| - 1;
    var before, e := events[..n], events[n];
    assert events == before + [e];
    PublishedIsHull(before, e);
    hide TooRecent;
  }

  /** The timer of a station is armed, and has expired. */
  predicate Due(p: Publisher, station: Station, now: int) {
    && station in p.debouncing && p.debouncing[station].deadline.Some?
    && now >= p.debouncing[station].deadline.value
  }

  /** The debounce: a timer that fires when it should publishes only requests that are
      at least a minute old. */
  lemma QuietForAMinute(events: seq<Event>, station: Station, now: int, r: Event)
    requires ClockRuns(events) && r in Waiting(events, station)
    requires Due(Run(events), station, now)
    ensures r.now + 60 <= now
  {
    PendingIsHull(events, station);
    WaitingIsOrdered(events, station);
    var w := Waiting(events, station);
    var i :| 0 <= i < |w| && w[i] == r;
    if i < |w| - 1 {
      assert w[i].now <= w[|w| - 1].now;
    }
  }

  lemma {:induction false} WaitingIsOrdered(events: seq<Event>, station: Station)
    requires ClockRuns(events)
    ensures ClockRuns(Waiting(events, station))
  {
    if events == [] {
    } else {
      var n := |events| - 1;
      WaitingIsOrdered(events[..n], station);
      WaitingAreEvents(events[..n], station);
      hide TooRecent;
      forall r | r in Waiting(events[..n], station) ensures r.now <= events[n].now {
        var i :| 0 <= i < n && events[..n][i] == r;
      }
    }
  }

  /** Timers fire when they are due, and no request of this station is accepted. */
  predicate Idle(events: seq<Event>, later: seq<Event>, station: Station) {
    forall k :: 0 <= k < |later| && later[k].station == station ==>
      !Accepted(later[k]) && (later[k].Fired? ==> Due(Run(events + later[..k]), station, later[k].now))
  }

  /** After an exception of the jobs database, the requests of a station stay as they are,
      and no job is published for it, until another one is accepted, however long it takes. */
  lemma {:induction false} LostTimerWaits(events: seq<Event>, later: seq<Event>, station: Station)
    requires Waiting(events, station) != [] && TimerLost(events, station)
    requires Idle(events, later, station)
    ensures var before, after := Run(events), Run(events + later);
      && Waiting(events + later, station) == Waiting(events, station) && TimerLost(events + later, station)
      && before.jobs <= after.jobs && forall k :: |before.jobs| <= k < |after.jobs| ==> after.jobs[k].station != station
  {
    hide TooRecent, Accepted, Fire, Merge;
    if later == [] {
      assert events + later == events;
    } else {
      var n := |later| - 1;
      var former, e := events + later[..n], later[n];
      assert events + later == former + [e];
      assert (former + [e])[..|former|] == former;
      assert forall k :: 0 <= k < n ==> later[..n][..k] == later[..k];
      LostTimerWaits(events, later[..n], station);
      PendingIsHull(former, station);
      JobsStay(Run(former), e);
      if e.station != station {
        JobsOf(Run(former), e);
      } else {
        RefusedIsIgnored(Run(former), e);
      }
    }
  }

  lemma JobsOf(p: Publisher, e: Event)
    ensures forall k :: |p.jobs| <= k < |Step(p, e).jobs| ==> Step(p, e).jobs[k].station == e.station
  {
  }

  lemma RefusedIsIgnored(p: Publisher, e: Event)
    requires e.Request? && !Accepted(e)
    ensures Step(p, e) == p
  {
  }

  /** It does happen: one request, and a firing, when it is due, that the database refuses. */
  lemma TimersAreLost()
    ensures var request, firing := Request(1, 0, 10, 100000), Fired(1, 100060, MinmaxThrows);
      && Due(Run([request]), 1, firing.now)
      && Waiting([request, firing], 1) == [request] && TimerLost([request, firing], 1)
  {
    var request, firing := Request(1, 0, 10, 100000), Fired(1, 100060, MinmaxThrows);
    assert [request][..0] == [] && [request, firing][..1] == [request];
    assert Waiting([request], 1) == Waiting([], 1) + [request];
    assert Run([request]) == Step(Run([]), request);
  }
}

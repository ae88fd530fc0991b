/** The phase-aligned download scheduler, and what it means for the Weatherlink stations:
    no drift, and each polling window downloaded exactly once. */
module DownloadSchedulers {
  import opened Common

  /** Times are nanoseconds since the epoch. */
  const MINUTE := 60_000_000_000

  const POLLING_PERIOD := 5
  const UNPRIVILEGED_POLLING_PERIOD := 15
  const OFFSET := 2 * MINUTE

  datatype Station = Station(id: nat, archived: bool, pollingPeriod: nat)

  datatype Download = Archive(id: nat, time: nat) | RealTime(id: nat, time: nat)

  /** The firing planned at some time: the offset after the next multiple of the period. */
  function NextFiring(now: nat, period: nat, offset: nat): nat
    requires period > 0
  {
    now + (period - now % period + offset)
  }

  function MinuteOfHour(t: nat): nat {
    t / MINUTE % 60
  }

  predicate IsDue(minutes: nat, pollingPeriod: nat)
    requires pollingPeriod > 0
  {
    minutes % pollingPeriod < POLLING_PERIOD
  }

  function Archives(stations: seq<Station>, time: nat): seq<Download>
    requires forall s :: s in stations ==> s.pollingPeriod > 0
  {
    if stations == [] then []
    else
      var n := |stations| - 1;
      assert stations[n] in stations;
      Archives(stations[..n], time)
      + if stations[n].archived && IsDue(MinuteOfHour(time), stations[n].pollingPeriod)
        then [Archive(stations[n].id, time)] else []
  }

  function RealTimes(stations: seq<Station>, time: nat): seq<Download> {
    if stations == [] then []
    else
      var n := |stations| - 1;
      RealTimes(stations[..n], time)
      + if !stations[n].archived && IsDue(MinuteOfHour(time), UNPRIVILEGED_POLLING_PERIOD)
        then [RealTime(stations[n].id, time)] else []
  }

  class WeatherlinkApiv2DownloadScheduler {
    var mustStop: bool
    var timer: Option<nat>
    var nbDownloads: nat
    var stations: seq<Station>
    var downloads: seq<Download>

    ghost predicate Valid()
      reads this
    {
      forall s :: s in stations ==> s.pollingPeriod > 0
    }

    constructor ()
      ensures Valid() && timer.None? && !mustStop && downloads == []
    {
      mustStop, timer, nbDownloads, stations, downloads := false, None, 0, [], [];
    }

    method Start(now: nat, stations: seq<Station>)
      requires forall s :: s in stations ==> s.pollingPeriod > 0
      modifies this
      ensures Valid() && this.stations == stations && !mustStop && nbDownloads == 0
      ensures timer == Some(NextFiring(now, POLLING_PERIOD * MINUTE, OFFSET)) && downloads == old(downloads)
    {
      mustStop := false;
      nbDownloads := 0;
      this.stations := stations;
      WaitUntilNextDownload(now);
    }

    method Stop()
      requires Valid()
      modifies this
      ensures Valid() && mustStop && timer.None?
      ensures downloads == old(downloads) && stations == old(stations) && nbDownloads == old(nbDownloads)
    {
      mustStop := true;
      timer := None;
    }

    method WaitUntilNextDownload(now: nat)
      modifies this`timer
      ensures timer == if mustStop then old(timer) else Some(NextFiring(now, POLLING_PERIOD * MINUTE, OFFSET))
      // two minutes after a multiple of five, within seven minutes
      ensures !mustStop ==>
        && timer.Some? && timer.value % 300_000_000_000 == 120_000_000_000
        && now + 120_000_000_000 < timer.value <= now + 420_000_000_000
    {
      if mustStop {
        return;
      }
      TwoMinutesAfter(now);
      var period := POLLING_PERIOD * MINUTE;
      var tp := period - now % period + OFFSET;
      timer := Some(now + tp);
    }

    /** The handler of the timer: `now` is when it runs, `end` when the download is over.
        A timer that goes off too early is only restarted. */
    method CheckDeadline(canceled: bool, now: nat, end: nat)
      requires Valid()
      modifies this
      ensures Valid() && stations == old(stations) && mustStop == old(mustStop)
      ensures var fires := !canceled && old(timer).Some? && old(timer).value <= now;
        && downloads == old(downloads) + (if fires then Archives(stations, now) + RealTimes(stations, now) else [])
        && nbDownloads == (if fires then old(nbDownloads) + 1 else old(nbDownloads))
        && timer == (if !fires then old(timer) else if mustStop then None
                     else Some(NextFiring(end, POLLING_PERIOD * MINUTE, OFFSET)))
    {
      if canceled || timer.None? {
        return;
      }
      if timer.value <= now {
        nbDownloads := nbDownloads + 1;
        timer := None;
        DownloadArchives(now);
        DownloadRealTime(now);
        WaitUntilNextDownload(end);
      }
    }

    method DownloadArchives(now: nat)
      requires Valid()
      modifies this`downloads
      ensures downloads == old(downloads) + Archives(stations, now)
    {
      var minutes := now / MINUTE % 60;
      for i := 0 to |stations|
        invariant downloads == old(downloads) + Archives(stations[..i], now)
      {
        assert stations[..i + 1][..i] == stations[..i] && stations[i] in stations;
        if stations[i].archived && minutes % stations[i].pollingPeriod < POLLING_PERIOD {
          downloads := downloads + [Archive(stations[i].id, now)];
        }
      }
      assert stations[..|stations|] == stations;
    }

    method DownloadRealTime(now: nat)
      modifies this`downloads
      ensures downloads == old(downloads) + RealTimes(stations, now)
    {
      var minutes := now / MINUTE % 60;
      ghost var before := downloads;
      if minutes % UNPRIVILEGED_POLLING_PERIOD < POLLING_PERIOD {
        for i := 0 to |stations|
          invariant downloads == before + RealTimes(stations[..i], now)
        {
          assert stations[..i + 1][..i] == stations[..i];
          if !stations[i].archived {
            downloads := downloads + [RealTime(stations[i].id, now)];
          }
        }
        assert stations[..|stations|] == stations;
      } else {
        NothingInRealTime(stations, now);
      }
    }
  }

  lemma {:induction false} NothingInRealTime(stations: seq<Station>, time: nat)
    requires !IsDue(MinuteOfHour(time), UNPRIVILEGED_POLLING_PERIOD)
    ensures RealTimes(stations, time) == []
  {
    if stations == [] {
    } else {
      NothingInRealTime(stations[..|stations| - 1], time);
    }
  }

  // ------------------------------------------------------------------------- the phase

  /** Where slot number k begins. */
  function Begin(k: nat, period: nat): nat {
    k * period
  }

  lemma BeginGrows(a: nat, b: nat, period: nat)
    requires a < b
    ensures Begin(a, period) + period <= Begin(b, period)
  {
    var more := b - a - 1;
    assert more * period >= 0;
    assert b * period == a * period + period + more * period;
  }

  /** Each time lies in exactly one slot. */
  lemma SlotOf(t: nat, k: nat, r: nat, period: nat)
    requires t == Begin(k, period) + r && r < period
    ensures t / period == k && t % period == r
  {
    InItsSlot(t, period);
    var q, x := t / period, t % period;
    hide Begin;
    if q < k {
      BeginGrows(q, k, period);
    } else if k < q {
      BeginGrows(k, q, period);
    }
  }

  lemma InItsSlot(t: nat, period: nat)
    requires period > 0
    ensures t == Begin(t / period, period) + t % period && 0 <= t % period < period
  {
  }

  /** Each firing is planned after the present slot, an offset after the beginning of the
      next one, and at most a period and an offset away. */
  lemma FiringIsAligned(now: nat, period: nat, offset: nat)
    requires period > 0
    ensures var f := NextFiring(now, period, offset);
      && f == Begin(now / period + 1, period) + offset
      && now + offset < f <= now + period + offset
  {
    InItsSlot(now, period);
    NextBegin(now / period, period);
    hide Begin;
  }

  lemma TwoMinutesAfter(now: nat)
    ensures var f := NextFiring(now, POLLING_PERIOD * MINUTE, OFFSET);
      f % 300_000_000_000 == 120_000_000_000 && now + 120_000_000_000 < f <= now + 420_000_000_000
  {
    FiringIsAligned(now, 300_000_000_000, 120_000_000_000);
    SlotOf(NextFiring(now, 300_000_000_000, 120_000_000_000), now / 300_000_000_000 + 1, 120_000_000_000,
           300_000_000_000);
  }

  lemma NextBegin(k: nat, period: nat)
    ensures Begin(k + 1, period) == Begin(k, period) + period
  {
  }

  /** The slot that follows a firing is the next one to be served if and only if the delay
      of the timer and the download together last less than the period minus the
      offset; otherwise at least one slot is missed. */
  lemma NextSlotIff(k: nat, elapsed: nat, period: nat, offset: nat)
    requires period > 0
    ensures var next := NextFiring(Begin(k, period) + offset + elapsed, period, offset);
      && next >= Begin(k + 1, period) + offset
      && (next == Begin(k + 1, period) + offset <==> elapsed + offset < period)
      && (elapsed + offset >= period ==> next >= Begin(k + 2, period) + offset)
  {
    var t := Begin(k, period) + offset + elapsed;
    var q := t / period;
    hide Begin, NextFiring;
    FiringIsAligned(t, period, offset);
    InItsSlot(t, period);
    NextBegin(k, period);
    NextBegin(k + 1, period);
    NextBegin(q, period);
    if elapsed + offset < period {
      SlotOf(t, k, offset + elapsed, period);
    } else if q <= k {
      if q < k {
        BeginGrows(q, k, period);
      }
    } else if q > k + 1 {
      BeginGrows(k + 1, q, period);
    }
  }

  // --------------------------------------------------------------------- whole schedules

  /** One activation: how late the timer goes off, and how long the download lasts. */
  datatype Activation = Activation(delay: nat, duration: nat)

  /** The planned time of the nth firing after a start. */
  function Firing(start: nat, runs: seq<Activation>, n: nat, period: nat, offset: nat): nat
    requires period > 0 && n <= |runs|
  {
    if n == 0 then NextFiring(start, period, offset)
    else
      NextFiring(Firing(start, runs, n - 1, period, offset) + runs[n - 1].delay + runs[n - 1].duration, period, offset)
  }

  predicate Prompt(a: Activation, period: nat, offset: nat) {
    a.delay + a.duration + offset < period
  }

  /** Without drift: whatever the delays, each firing is planned exactly an offset after
      the beginning of a slot. */
  lemma {:induction false} NoDrift(start: nat, runs: seq<Activation>, n: nat, period: nat, offset: nat)
    requires period > 0 && n <= |runs|
    ensures exists k: nat :: k > start / period && Firing(start, runs, n, period, offset) == Begin(k, period) + offset
  {
    hide Begin, NextFiring;
    if n == 0 {
      FiringIsAligned(start, period, offset);
    } else {
      NoDrift(start, runs, n - 1, period, offset);
      var k: nat :| k > start / period && Firing(start, runs, n - 1, period, offset) == Begin(k, period) + offset;
      var now := Begin(k, period) + offset + runs[n - 1].delay + runs[n - 1].duration;
      SlotNotBefore(now, k, period);
      FiringIsAligned(now, period, offset);
      var next := now / period + 1;
      assert Firing(start, runs, n, period, offset) == Begin(next, period) + offset;
    }
  }

  lemma SlotNotBefore(now: nat, k: nat, period: nat)
    requires period > 0 && now >= Begin(k, period)
    ensures now / period >= k
  {
    InItsSlot(now, period);
    var q, r := now / period, now % period;
    hide Begin;
    if q < k {
      BeginGrows(q, k, period);
    }
  }

  /** No slot is missed, and none is served twice, exactly as long as every delay and
      download together last less than the period minus the offset. */
  lemma {:induction false} EverySlotIff(start: nat, runs: seq<Activation>, n: nat, period: nat, offset: nat)
    requires period > 0 && n <= |runs|
    ensures Firing(start, runs, n, period, offset) >= Begin(start / period + 1 + n, period) + offset
    ensures Firing(start, runs, n, period, offset) == Begin(start / period + 1 + n, period) + offset <==>
      forall i :: 0 <= i < n ==> Prompt(runs[i], period, offset)
  {
    hide Begin, NextFiring;
    if n == 0 {
      FiringIsAligned(start, period, offset);
    } else {
      EverySlotIff(start, runs, n - 1, period, offset);
      NoDrift(start, runs, n - 1, period, offset);
      var k: nat :| k > start / period && Firing(start, runs, n - 1, period, offset) == Begin(k, period) + offset;
      var due := start / period + n;
      NextSlotIff(k, runs[n - 1].delay + runs[n - 1].duration, period, offset);
      if k < due {
        BeginGrows(k, due, period);
      } else if k > due {
        BeginGrows(due, k, period);
        NextBegin(k, period);
        NextBegin(due, period);
      }
    }
  }

  /** In every schedule, whatever the delays, each firing is planned two minutes after a
      multiple of five minutes. */
  lemma FiringsByTheClock(start: nat, runs: seq<Activation>, n: nat)
    requires n <= |runs|
    ensures Firing(start, runs, n, POLLING_PERIOD * MINUTE, OFFSET) % 300_000_000_000 == 120_000_000_000
  {
    hide NextFiring;
    if n == 0 {
      TwoMinutesAfter(start);
    } else {
      TwoMinutesAfter(Firing(start, runs, n - 1, POLLING_PERIOD * MINUTE, OFFSET) + runs[n - 1].delay
                      + runs[n - 1].duration);
    }
  }

  // -------------------------------------------------------------------- polling windows

  /** The slot that serves the nth firing of a prompt schedule. */
  function SlotAt(start: nat, n: nat): nat {
    start / (POLLING_PERIOD * MINUTE) + 1 + n
  }

  /** When the handler of the nth firing runs. */
  function RunsAt(start: nat, runs: seq<Activation>, n: nat): nat
    requires n < |runs|
  {
    Firing(start, runs, n, POLLING_PERIOD * MINUTE, OFFSET) + runs[n].delay
  }

  predicate AllPrompt(runs: seq<Activation>) {
    forall i :: 0 <= i < |runs| ==> Prompt(runs[i], POLLING_PERIOD * MINUTE, OFFSET)
  }

  /** Each handler of a prompt schedule runs inside its own five minutes. */
  lemma RunsInItsSlot(start: nat, runs: seq<Activation>, n: nat)
    requires n < |runs| && AllPrompt(runs)
    ensures RunsAt(start, runs, n) / (POLLING_PERIOD * MINUTE) == SlotAt(start, n)
  {
    var period := POLLING_PERIOD * MINUTE;
    EverySlotIff(start, runs, n, period, OFFSET);
    SlotOf(RunsAt(start, runs, n), SlotAt(start, n), OFFSET + runs[n].delay, period);
  }

  /** A polling period that divides the hour is due in the first five minutes of each
      window: in the slots whose number is a multiple of the slots of a window. */
  lemma DueSlots(time: nat, slots: nat)
    requires 0 < slots && 12 % slots == 0
    ensures IsDue(MinuteOfHour(time), POLLING_PERIOD * slots)
      <==> time / (POLLING_PERIOD * MINUTE) % slots == 0
  {
    var m := time / MINUTE;
    assert time / (POLLING_PERIOD * MINUTE) == m / 5;
    MinuteIsDue(m, slots);
  }

  /** Slots of slots: the position of a time in a long slot, from those in its parts. */
  lemma Nested(t: nat, period: nat, count: nat)
    requires period > 0 && count > 0
    ensures period * count > 0
    ensures t / (period * count) == t / period / count
    ensures t % (period * count) == t / period % count * period + t % period
  {
    var q, r := t / period, t % period;
    var a, b := q / count, q % count;
    InItsSlot(t, period);
    InItsSlot(q, count);
    BeginGrows(b, count, period);
    assert t == Begin(a, period * count) + (b * period + r) by {
      assert q * period == (a * count + b) * period;
      assert a * count * period == a * (period * count);
    }
    assert count * period == period * count;
    SlotOf(t, a, b * period + r, period * count);
  }

  lemma MinuteIsDue(m: nat, slots: nat)
    requires 0 < slots && 12 % slots == 0
    ensures IsDue(m % 60, POLLING_PERIOD * slots) <==> m / 5 % slots == 0
  {
    var hours := 12 / slots;
    Nested(m, 5, slots);
    var b := m / 5 % slots;
    assert m % (5 * slots) < 5 <==> b == 0;
    InItsSlot(12, slots);
    assert 5 * slots * hours == 60 by { assert 12 == hours * slots; }
    RemainderOfRemainder(m, 5 * slots, hours);
  }

  lemma RemainderOfRemainder(m: nat, period: nat, count: nat)
    requires period > 0 && count > 0 && period * count > 0
    ensures m % (period * count) % period == m % period
  {
    Nested(m, period, count);
    var b, r := m / period % count, m % period;
    assert b * period + r == Begin(b, period) + r;
    SlotOf(b * period + r, b, r, period);
  }

  /** The polling window, in minutes since the epoch divided by the period, of a time. */
  function WindowOf(time: nat, pollingPeriod: nat): nat
    requires pollingPeriod > 0
  {
    time / (pollingPeriod * MINUTE)
  }

  /** The nth firing finds a polling period due, inside a window. */
  predicate Serves(start: nat, runs: seq<Activation>, pollingPeriod: nat, window: nat, n: nat)
    requires pollingPeriod > 0 && n < |runs|
  {
    var time := RunsAt(start, runs, n);
    IsDue(MinuteOfHour(time), pollingPeriod) && WindowOf(time, pollingPeriod) == window
  }

  lemma ServesIff(start: nat, runs: seq<Activation>, slots: nat, window: nat, n: nat)
    requires AllPrompt(runs) && n < |runs| && 0 < slots && 12 % slots == 0
    ensures Serves(start, runs, POLLING_PERIOD * slots, window, n) <==> SlotAt(start, n) == window * slots
  {
    var time := RunsAt(start, runs, n);
    RunsInItsSlot(start, runs, n);
    DueSlots(time, slots);
    WindowOfSlot(time, slots);
    MultipleOf(SlotAt(start, n), slots, window);
    hide RunsAt, MinuteOfHour, IsDue, SlotAt;
  }

  /** Exactly once: when the polling period is a multiple of five minutes that divides the
      hour, exactly one firing of a prompt schedule finds it due in each window that
      begins during the schedule: the firing whose slot begins the window. So it goes
      for the archives of a station, and every fifteen minutes for real-time data. */
  lemma ExactlyOncePerWindow(start: nat, runs: seq<Activation>, slots: nat, window: nat)
    requires AllPrompt(runs) && 0 < slots && 12 % slots == 0
    requires SlotAt(start, 0) <= window * slots < SlotAt(start, |runs|)
    ensures var n := window * slots - SlotAt(start, 0);
      && n < |runs| && Serves(start, runs, POLLING_PERIOD * slots, window, n)
      && forall i :: 0 <= i < |runs| && Serves(start, runs, POLLING_PERIOD * slots, window, i) ==> i == n
  {
    forall i | 0 <= i < |runs|
      ensures Serves(start, runs, POLLING_PERIOD * slots, window, i) <==> SlotAt(start, i) == window * slots
    {
      ServesIff(start, runs, slots, window, i);
    }
    hide Serves;
  }

  lemma WindowOfSlot(time: nat, slots: nat)
    requires 0 < slots
    ensures WindowOf(time, POLLING_PERIOD * slots) == time / (POLLING_PERIOD * MINUTE) / slots
  {
    Nested(time, POLLING_PERIOD * MINUTE, slots);
    assert POLLING_PERIOD * MINUTE * slots == POLLING_PERIOD * slots * MINUTE;
  }

  lemma MultipleOf(k: nat, slots: nat, window: nat)
    requires slots > 0
    ensures k % slots == 0 && k / slots == window <==> k == window * slots
  {
    InItsSlot(k, slots);
    if k == window * slots {
      SlotOf(k, window, 0, slots);
    }
  }

  // ---------------------------------------------------------------- what is downloaded

  /** Stations are served in the order of the list. */
  lemma {:induction false} InOrder(first: seq<Station>, others: seq<Station>, time: nat)
    requires Pollable(first) && Pollable(others) && Pollable(first + others)
    ensures Archives(first + others, time) == Archives(first, time) + Archives(others, time)
    ensures RealTimes(first + others, time) == RealTimes(first, time) + RealTimes(others, time)
  {
    hide IsDue, MinuteOfHour;
    if others == [] {
      assert first + others == first;
    } else {
      var n := |others| - 1;
      assert (first + others)[..|first| + n] == first + others[..n];
      InOrder(first, others[..n], time);
    }
  }

  /** The archive of a station is downloaded at the minutes of the hour that are less than
      five above a multiple of its polling period: at every firing when that period is of
      five minutes or less. */
  lemma {:induction false} ArchivesIff(stations: seq<Station>, time: nat, d: Download)
    requires Pollable(stations)
    ensures d in Archives(stations, time) <==> exists s ::
      && s in stations && s.archived && d == Archive(s.id, time)
      && (s.pollingPeriod <= 5 || time / 60_000_000_000 % 60 % s.pollingPeriod < 5)
  {
    if stations == [] {
    } else {
      var n := |stations| - 1;
      assert stations == stations[..n] + [stations[n]];
      ArchivesIff(stations[..n], time, d);
    }
  }

  /** Real-time data are downloaded in the first five minutes of each quarter of an hour, for
      each station without archive. */
  lemma {:induction false} RealTimesIff(stations: seq<Station>, time: nat, d: Download)
    ensures var m := time / 60_000_000_000 % 60;
      d in RealTimes(stations, time) <==>
        && (m <= 4 || 15 <= m <= 19 || 30 <= m <= 34 || 45 <= m <= 49)
        && exists s :: s in stations && !s.archived && d == RealTime(s.id, time)
  {
    if stations == [] {
    } else {
      var n := |stations| - 1;
      assert stations == stations[..n] + [stations[n]];
      RealTimesIff(stations[..n], time, d);
    }
  }

  predicate Pollable(stations: seq<Station>) {
    forall s :: s in stations ==> s.pollingPeriod > 0
  }

  /** What the first n firings of a schedule download. */
  function DownloadsUpTo(stations: seq<Station>, start: nat, runs: seq<Activation>, n: nat): seq<Download>
    requires Pollable(stations) && n <= |runs|
  {
    if n == 0 then []
    else
      var time := RunsAt(start, runs, n - 1);
      DownloadsUpTo(stations, start, runs, n - 1) + (Archives(stations, time) + RealTimes(stations, time))
  }

  /** A schedule, from its start on, as the event loop runs it: the log of the scheduler. */
  method RunSchedule(scheduler: WeatherlinkApiv2DownloadScheduler, stations: seq<Station>, start: nat,
                     runs: seq<Activation>)
    requires Pollable(stations)
    modifies scheduler
    ensures scheduler.downloads == old(scheduler.downloads) + DownloadsUpTo(stations, start, runs, |runs|)
    ensures scheduler.nbDownloads == |runs|
  {
    hide Archives, RealTimes, NextFiring;
    scheduler.Start(start, stations);
    for n := 0 to |runs|
      invariant scheduler.Valid() && !scheduler.mustStop && scheduler.stations == stations
      invariant scheduler.timer == Some(Firing(start, runs, n, POLLING_PERIOD * MINUTE, OFFSET))
      invariant scheduler.downloads == old(scheduler.downloads) + DownloadsUpTo(stations, start, runs, n)
      invariant scheduler.nbDownloads == n
    {
      var now := scheduler.timer.value + runs[n].delay;
      scheduler.CheckDeadline(false, now, now + runs[n].duration);
    }
  }

  /** A download of the given kind, for a station, in a polling window. */
  predicate IsOf(d: Download, archive: bool, id: nat, pollingPeriod: nat, window: nat)
    requires pollingPeriod > 0
  {
    d.Archive? == archive && d.id == id && WindowOf(d.time, pollingPeriod) == window
  }

  function Count(downloads: seq<Download>, archive: bool, id: nat, pollingPeriod: nat, window: nat): nat
    requires pollingPeriod > 0
  {
    if downloads == [] then 0
    else
      var n := |downloads| - 1;
      Count(downloads[..n], archive, id, pollingPeriod, window)
      + if IsOf(downloads[n], archive, id, pollingPeriod, window) then 1 else 0
  }

  lemma {:induction false} CountConcat(a: seq<Download>, b: seq<Download>, archive: bool, id: nat,
                                       pollingPeriod: nat, window: nat)
    requires pollingPeriod > 0
    ensures Count(a + b, archive, id, pollingPeriod, window)
         == Count(a, archive, id, pollingPeriod, window) + Count(b, archive, id, pollingPeriod, window)
  {
    hide IsOf;
    if b == [] {
      assert a + b == a;
    } else {
      var n := |b| - 1;
      assert (a + b)[..|a| + n] == a + b[..n];
      CountConcat(a, b[..n], archive, id, pollingPeriod, window);
    }
  }

  lemma {:induction false} CountNone(downloads: seq<Download>, archive: bool, id: nat, pollingPeriod: nat, window: nat)
    requires pollingPeriod > 0
    requires forall d :: d in downloads ==> !IsOf(d, archive, id, pollingPeriod, window)
    ensures Count(downloads, archive, id, pollingPeriod, window) == 0
  {
    hide IsOf;
    if downloads == [] {
    } else {
      CountNone(downloads[..|downloads| - 1], archive, id, pollingPeriod, window);
    }
  }

  lemma CountOne(d: Download, archive: bool, id: nat, pollingPeriod: nat, window: nat)
    requires pollingPeriod > 0
    ensures Count([d], archive, id, pollingPeriod, window)
         == if IsOf(d, archive, id, pollingPeriod, window) then 1 else 0
  {
    hide IsOf;
    assert [d][..0] == [];
  }

  lemma {:induction false} MadeAt(stations: seq<Station>, time: nat)
    requires Pollable(stations)
    ensures forall d :: d in Archives(stations, time) ==>
      d.Archive? && d.time == time && exists s :: s in stations && s.archived && s.id == d.id
    ensures forall d :: d in RealTimes(stations, time) ==>
      d.RealTime? && d.time == time && exists s :: s in stations && !s.archived && s.id == d.id
  {
    hide IsDue, MinuteOfHour;
    if stations == [] {
    } else {
      var n := |stations| - 1;
      assert stations == stations[..n] + [stations[n]];
      MadeAt(stations[..n], time);
    }
  }

  /** No two stations of the same kind have the same identifier as this one. */
  predicate Alone(stations: seq<Station>, j: nat)
    requires j < |stations|
  {
    forall i :: 0 <= i < |stations| && i != j && stations[i].archived == stations[j].archived ==>
      stations[i].id != stations[j].id
  }

  /** When a station is due: an archive at its own polling period, real-time data at the
      one of unprivileged stations. */
  function PeriodOf(s: Station): nat {
    if s.archived then s.pollingPeriod else UNPRIVILEGED_POLLING_PERIOD
  }

  function Made(stations: seq<Station>, time: nat, archive: bool): seq<Download>
    requires Pollable(stations)
  {
    if archive then Archives(stations, time) else RealTimes(stations, time)
  }

  lemma MadeStep(stations: seq<Station>, time: nat, archive: bool)
    requires Pollable(stations) && stations != []
    ensures var n := |stations| - 1;
      && Pollable(stations[..n]) && PeriodOf(stations[n]) > 0
      && Made(stations, time, archive) == Made(stations[..n], time, archive) +
           if stations[n].archived == archive && IsDue(MinuteOfHour(time), PeriodOf(stations[n]))
           then [if archive then Archive(stations[n].id, time) else RealTime(stations[n].id, time)] else []
  {
    hide IsDue, MinuteOfHour;
  }

  lemma NoneMade(stations: seq<Station>, time: nat, s: Station, window: nat)
    requires Pollable(stations) && PeriodOf(s) > 0
    requires forall i :: 0 <= i < |stations| && stations[i].archived == s.archived ==> stations[i].id != s.id
    ensures Count(Made(stations, time, s.archived), s.archived, s.id, PeriodOf(s), window) == 0
  {
    MadeAt(stations, time);
    hide Archives, RealTimes;
    CountNone(Made(stations, time, s.archived), s.archived, s.id, PeriodOf(s), window);
  }

  /** One firing downloads a station once if it is due, and otherwise not at all. */
  lemma {:induction false} OncePerFiring(stations: seq<Station>, j: nat, time: nat, window: nat)
    requires Pollable(stations) && j < |stations| && Alone(stations, j) && PeriodOf(stations[j]) > 0
    ensures var s := stations[j];
      Count(Made(stations, time, s.archived), s.archived, s.id, PeriodOf(s), window)
      == if IsDue(MinuteOfHour(time), PeriodOf(s)) && WindowOf(time, PeriodOf(s)) == window then 1 else 0
  {
    hide Made, IsDue, MinuteOfHour, WindowOf, PeriodOf, Count;
    var n := |stations| - 1;
    var s, former, last := stations[j], stations[..n], stations[n];
    var period := PeriodOf(s);
    MadeStep(stations, time, s.archived);
    var d := if s.archived then Archive(last.id, time) else RealTime(last.id, time);
    CountOne(d, s.archived, s.id, period, window);
    CountNone([], s.archived, s.id, period, window);
    CountConcat(Made(former, time, s.archived),
                if last.archived == s.archived && IsDue(MinuteOfHour(time), PeriodOf(last)) then [d] else [],
                s.archived, s.id, period, window);
    if j < n {
      assert Alone(former, j);
      OncePerFiring(former, j, time, window);
    } else {
      NoneMade(former, time, s, window);
    }
  }

  lemma OtherKind(stations: seq<Station>, time: nat, archive: bool, id: nat, period: nat, window: nat)
    requires Pollable(stations) && period > 0
    ensures Count(Archives(stations, time) + RealTimes(stations, time), archive, id, period, window)
         == Count(Made(stations, time, archive), archive, id, period, window)
  {
    MadeAt(stations, time);
    CountConcat(Archives(stations, time), RealTimes(stations, time), archive, id, period, window);
    hide Archives, RealTimes;
    CountNone(Made(stations, time, !archive), archive, id, period, window);
  }

  /** Up to some firing, a window has been served once the firing that begins it is over,
      and not before. */
  lemma {:induction false} CountUpTo(stations: seq<Station>, j: nat, start: nat, runs: seq<Activation>, n: nat,
                                     slots: nat, window: nat)
    requires Pollable(stations) && j < |stations| && Alone(stations, j)
    requires AllPrompt(runs) && n <= |runs| && 0 < slots && 12 % slots == 0
    requires PeriodOf(stations[j]) == POLLING_PERIOD * slots && SlotAt(start, 0) <= window * slots
    ensures var s := stations[j];
      Count(DownloadsUpTo(stations, start, runs, n), s.archived, s.id, PeriodOf(s), window)
      == if window * slots < SlotAt(start, n) then 1 else 0
  {
    hide Made, IsDue, MinuteOfHour, WindowOf, PeriodOf, Count, RunsAt, Archives, RealTimes;
    var s := stations[j];
    var period := PeriodOf(s);
    if n == 0 {
      CountNone([], s.archived, s.id, period, window);
    } else {
      var time := RunsAt(start, runs, n - 1);
      CountUpTo(stations, j, start, runs, n - 1, slots, window);
      CountConcat(DownloadsUpTo(stations, start, runs, n - 1), Archives(stations, time) + RealTimes(stations, time),
                  s.archived, s.id, period, window);
      OtherKind(stations, time, s.archived, s.id, period, window);
      OncePerFiring(stations, j, time, window);
      ServesIff(start, runs, slots, window, n - 1);
    }
  }

  /** Exactly once, in the log: of a schedule whose activations are all short enough, each
      window that begins during it holds exactly one download of each station, of its
      archive or of its real-time data, when its polling period is a multiple of five
      minutes that divides the hour. */
  lemma DownloadedExactlyOnce(stations: seq<Station>, j: nat, start: nat, runs: seq<Activation>, slots: nat,
                              window: nat)
    requires Pollable(stations) && j < |stations| && Alone(stations, j)
    requires AllPrompt(runs) && 0 < slots && 12 % slots == 0 && PeriodOf(stations[j]) == POLLING_PERIOD * slots
    requires SlotAt(start, 0) <= window * slots < SlotAt(start, |runs|)
    ensures var s := stations[j];
      Count(DownloadsUpTo(stations, start, runs, |runs|), s.archived, s.id, PeriodOf(s), window) == 1
  {
    CountUpTo(stations, j, start, runs, |runs|, slots, window);
  }
}

/** Where the Liveobjects downloader stops keeping its promise: the exact condition of
    each download, including those that begin before the last archive, or after it. */
module LiveobjectsLimits {
  import opened Common
  import opened LiveobjectsApiDownloaders
  import opened LiveobjectsCoverage

  // ------------------------------------------------------- where each window really leads

  /** The newest date after the page of a window, at most. A download that begins before
      its newest date reaches that date with its first page. */
  function Bound(server: seq<Message>, start: Progress, date: int): (b: int)
    ensures b >= date
  {
    var latest := LatestValid(FirstPage(server, date), date);
    if date == start.date && start.newest > latest then start.newest else latest
  }

  function Landing(server: seq<Message>, start: Progress, date: int): (d: int)
    ensures d > date
  {
    if Bound(server, start, date) > date then Bound(server, start, date) else date + DAY
  }

  /** Nothing valid lies before the next window that is not on the page of this one. */
  predicate Emptied(server: seq<Message>, start: Progress, date: int) {
    forall m :: m in server && m.valid && date < m.time <= Landing(server, start, date) ==>
      m in FirstPage(server, date)
  }

  predicate Fits(server: seq<Message>, start: Progress, p: Progress) {
    && p.newest <= Bound(server, start, p.date)
    && p.date >= start.date
    && (p.date == start.date ==> p.newest >= start.newest)
  }

  /** Each inserted message is before the present window, or on its page. */
  predicate Seen(server: seq<Message>, start: Progress, p: Progress) {
    forall m :: m in p.inserted ==>
      m in server && m.valid && start.date < m.time && (m.time <= p.date || m in FirstPage(server, p.date))
  }

  lemma PageLands(server: seq<Message>, start: Progress, p: Progress, entries: seq<Entry>)
    requires Fits(server, start, p) && Messages(entries) == FirstPage(server, p.date)
    requires TakeAll(p, entries).insertionOk
    ensures var q := Turn(p, Page(entries));
      && q.date == Landing(server, start, p.date) && Fits(server, start, q)
      && p.inserted <= q.inserted
      && (forall m :: m in FirstPage(server, p.date) && m.valid ==> m in q.inserted && m.time <= q.date)
      && forall m :: m in q.inserted ==> m in p.inserted || (m in FirstPage(server, p.date) && m.valid)
  {
    var page := FirstPage(server, p.date);
    LatestValidIsMaximum(page, p.date);
    TakeAllFacts(p, entries, Bound(server, start, p.date));
    hide TakeAll, FirstPage, LatestValid;
  }

  lemma PartStays(server: seq<Message>, start: Progress, p: Progress, entries: seq<Entry>)
    requires Fits(server, start, p) && Messages(entries) <= FirstPage(server, p.date)
    ensures var q := Turn(p, Unparseable(entries));
      && q.date == p.date && Fits(server, start, q) && p.inserted <= q.inserted
      && forall m :: m in q.inserted ==> m in p.inserted || (m in FirstPage(server, p.date) && m.valid)
  {
    var page := FirstPage(server, p.date);
    assert page == Messages(entries) + page[|entries|..];
    LatestValidIsMaximum(page, p.date);
    TakeAllFacts(p, entries, Bound(server, start, p.date));
    hide TakeAll, FirstPage, LatestValid;
  }

  lemma PageCovers(server: seq<Message>, start: Progress, p: Progress, entries: seq<Entry>)
    requires Fits(server, start, p) && Seen(server, start, p) && Messages(entries) == FirstPage(server, p.date)
    requires TakeAll(p, entries).insertionOk
    ensures var q := Turn(p, Page(entries));
      && Fits(server, start, q) && Seen(server, start, q)
      && (Covered(server, q, start.date) <==> Covered(server, p, start.date) && Emptied(server, start, p.date))
  {
    PageLands(server, start, p, entries);
    PageParts(server, p.date);
    var q := Turn(p, Page(entries));
    hide Turn, FirstPage, Landing, Fits;
    if Covered(server, q, start.date) {
      forall m | m in server && m.valid && p.date < m.time <= Landing(server, start, p.date)
        ensures m in FirstPage(server, p.date)
      {
        assert m in q.inserted;
      }
    }
  }

  lemma PartCovers(server: seq<Message>, start: Progress, p: Progress, entries: seq<Entry>)
    requires Fits(server, start, p) && Seen(server, start, p) && Messages(entries) <= FirstPage(server, p.date)
    ensures var q := Turn(p, Unparseable(entries));
      && Fits(server, start, q) && Seen(server, start, q)
      && (Covered(server, q, start.date) <==> Covered(server, p, start.date))
  {
    PartStays(server, start, p, entries);
    PageParts(server, p.date);
    hide Turn, FirstPage, Fits;
  }

  /** The window of a turn has been left for the next one. */
  predicate Turned(service: Service, start: Progress, k: nat) {
    ReplyAt(service, start, k).Page?
  }

  /** The exact account of any clean download, wherever it begins: it has inserted every
      valid message up to the date reached if and only if each window that it has left
      was emptied. */
  lemma {:induction false} CoveredIff(service: Service, server: seq<Message>, start: Progress, n: nat)
    requires Honest(service, server) && start.inserted == {} && Clean(service, start, n)
    ensures var p := Turns(service, start, n);
      && Fits(server, start, p) && Seen(server, start, p)
      && (Covered(server, p, start.date) <==>
          forall k :: 0 <= k < n && Turned(service, start, k) ==>
            Emptied(server, start, Turns(service, start, k).date))
  {
    hide Emptied, FirstPage, LatestValid, Honest;
    if n == 0 {
      hide Bound;
    } else {
      var p, r := Turns(service, start, n - 1), ReplyAt(service, start, n - 1);
      CleanBefore(service, server, start, n);
      CoveredIff(service, server, start, n - 1);
      HonestReply(service, server, start, n - 1);
      hide Fits, Seen, Covered, TakeAll;
      if r.Page? {
        PageCovers(server, start, p, r.entries);
      } else {
        PartCovers(server, start, p, r.entries);
      }
    }
  }

  lemma HonestReply(service: Service, server: seq<Message>, start: Progress, n: nat)
    requires Honest(service, server)
    ensures var r, date := ReplyAt(service, start, n), Turns(service, start, n).date;
      && (r.Page? ==> Messages(r.entries) == FirstPage(server, date))
      && (r.Unparseable? ==> Messages(r.entries) <= FirstPage(server, date))
  {
    hide FirstPage;
  }

  // ------------------------------------------------------------------ in terms of pages

  /** Apart from a first window that begins before the newest date, a window is emptied
      exactly when its page is safe. */
  lemma EmptiedIffSafe(server: seq<Message>, start: Progress, date: int)
    requires Distinct(server) && (date != start.date || start.newest <= start.date)
    ensures Emptied(server, start, date) <==> PageSafe(server, date)
  {
    assert Landing(server, start, date) == Next(server, date);
    hide Landing, Next, FirstPage, PageSafe, Distinct;
    if PageSafe(server, date) {
      forall m | m in server && m.valid && date < m.time <= Next(server, date) ensures m in FirstPage(server, date) {
        SafeWindow(server, date, m);
      }
    } else {
      var m := UnsafeWindow(server, date);
    }
  }

  /** Every page turned in these windows was safe. */
  predicate SafeTurns(service: Service, server: seq<Message>, start: Progress, n: nat, beyond: int) {
    forall k :: 0 <= k < n && Turned(service, start, k) && Turns(service, start, k).date >= beyond ==>
      PageSafe(server, Turns(service, start, k).date)
  }

  /** A download that does not begin before its newest date: exactly when it is complete. */
  lemma DownloadCoversIff(service: Service, server: seq<Message>, start: Progress, n: nat)
    requires Honest(service, server) && Distinct(server) && start.inserted == {} && Clean(service, start, n)
    requires start.newest <= start.date
    ensures Covered(server, Turns(service, start, n), start.date)
      <==> SafeTurns(service, server, start, n, start.date)
  {
    CoveredIff(service, server, start, n);
    hide Honest, Distinct, Clean, Covered, Emptied, PageSafe, Turned, Turns, Fits, Seen;
    forall k | 0 <= k < n
      ensures Emptied(server, start, Turns(service, start, k).date) <==>
        PageSafe(server, Turns(service, start, k).date)
      ensures Turns(service, start, k).date >= start.date
    {
      EmptiedIffSafe(server, start, Turns(service, start, k).date);
      FirstTurn(service, start, k);
    }
  }

  /** Each valid message up to the newest date, or up to the latest one of the first
      page, is on that page. */
  predicate FirstPageReaches(server: seq<Message>, start: Progress) {
    var page := FirstPage(server, start.date);
    forall m :: m in server && m.valid && start.date < m.time ==>
      m.time <= start.newest || m.time <= LatestValid(page, start.date) ==> m in page
  }

  lemma ReachesIffEmptied(server: seq<Message>, start: Progress)
    requires start.date < start.newest
    ensures FirstPageReaches(server, start) <==> Emptied(server, start, start.date)
  {
    hide FirstPage, LatestValid;
  }

  /** The date moves exactly when a page is turned in the first window. */
  lemma {:induction false} FirstTurn(service: Service, start: Progress, n: nat)
    ensures Turns(service, start, n).date >= start.date
    ensures Turns(service, start, n).date > start.date <==>
      exists k :: 0 <= k < n && Turned(service, start, k) && Turns(service, start, k).date == start.date
  {
    if n == 0 {
    } else {
      FirstTurn(service, start, n - 1);
      var p, r := Turns(service, start, n - 1), ReplyAt(service, start, n - 1);
      if !r.CurlError? {
        TakeAllKeepsDate(p, r.entries);
      }
      hide TakeAll;
      if p.date == start.date && r.Page? {
        assert Turned(service, start, n - 1);
      }
    }
  }

  /** A download that begins before its newest date: exactly when it is complete. Once a
      page has been turned, all up to the newest date must have been on the first one. */
  lemma BackfillCoversIff(service: Service, server: seq<Message>, start: Progress, n: nat)
    requires Honest(service, server) && Distinct(server) && start.inserted == {} && Clean(service, start, n)
    requires start.date < start.newest
    ensures var p := Turns(service, start, n);
      Covered(server, p, start.date) <==>
        && (p.date == start.date || FirstPageReaches(server, start))
        && SafeTurns(service, server, start, n, start.date + 1)
  {
    CoveredIff(service, server, start, n);
    FirstTurn(service, start, n);
    ReachesIffEmptied(server, start);
    hide Honest, Distinct, Clean, Covered, Emptied, PageSafe, Turned, Turns, Fits, Seen, FirstPageReaches;
    forall k | 0 <= k < n
      ensures Turns(service, start, k).date >= start.date
      ensures Turns(service, start, k).date > start.date ==>
        (Emptied(server, start, Turns(service, start, k).date) <==>
          PageSafe(server, Turns(service, start, k).date))
    {
      FirstTurn(service, start, k);
      if Turns(service, start, k).date > start.date {
        EmptiedIffSafe(server, start, Turns(service, start, k).date);
      }
    }
  }

  /** What lies at or before the beginning is never inserted, however long it goes on. */
  lemma {:induction false} BeforeTheBeginning(service: Service, server: seq<Message>, start: Progress, n: nat,
                                              m: Message)
    requires Honest(service, server) && start.inserted == {} && m.time <= start.date
    ensures m !in Turns(service, start, n).inserted
  {
    hide TakeAll, FirstPage, Honest, Turn, Turned;
    if n == 0 {
    } else {
      BeforeTheBeginning(service, server, start, n - 1, m);
      NotOnAnyPage(service, server, start, n - 1, m);
      TurnWithout(Turns(service, start, n - 1), ReplyAt(service, start, n - 1), m);
    }
  }

  lemma NotOnAnyPage(service: Service, server: seq<Message>, start: Progress, n: nat, m: Message)
    requires Honest(service, server) && m.time <= start.date
    ensures var r := ReplyAt(service, start, n);
      r.CurlError? || m !in Messages(r.entries)
  {
    hide FirstPage, Honest, Turns, Turned;
    var r, date := ReplyAt(service, start, n), Turns(service, start, n).date;
    FirstTurn(service, start, n);
    HonestReply(service, server, start, n);
    PageParts(server, date);
    if !r.CurlError? {
      NotOnPage(FirstPage(server, date), Messages(r.entries), m);
    }
  }

  lemma TurnWithout(p: Progress, r: Reply, m: Message)
    requires m !in p.inserted && (r.CurlError? || m !in Messages(r.entries))
    ensures m !in Turn(p, r).inserted
  {
    if !r.CurlError? {
      TakeAllSpan(p, r.entries);
    }
    hide TakeAll;
  }

  // ------------------------------------------------------------- the forced download

  /** A forced download takes the beginning asked for as its newest date. When it ends
      well, the new watermark leaves nothing behind if and only if all that lies between
      the old watermark and that beginning had been stored before. */
  lemma ForcedWatermarkIff(service: Service, server: seq<Message>, start: Progress, n: nat, endDate: int,
                           rows: set<Message>, lastArchive: int)
    requires Honest(service, server) && AllSafe(server)
    requires start.newest == start.date < endDate && start.inserted == {}
    requires n > 0 && Uninterrupted(service, start, n - 1, endDate) && !ReplyAt(service, start, n - 1).CurlError?
    requires LoopEnds(Turns(service, start, n), endDate) && Turns(service, start, n).insertionOk
    ensures var p := Turns(service, start, n);
      Stored(server, rows + p.inserted, lastArchive, p.newest) <==> Stored(server, rows, lastArchive, start.date)
  {
    var p := Turns(service, start, n);
    WatermarkLeavesNothing(service, server, start, n, endDate);
    SpanIsTight(service, start, n);
    forall m | m in p.inserted ensures m.time > start.date {
      if m.time <= start.date {
        BeforeTheBeginning(service, server, start, n, m);
      }
    }
    hide Honest, AllSafe, Uninterrupted, LoopEnds, Turns, ReplyAt;
  }

  /** The download that the command line tool makes: it is forced. */
  method DownloadForced(downloader: LiveobjectsApiDownloader, service: Service, lastAvailable: Option<int>,
                        beginDate: int, endDate: int, now: int, updated: bool, ghost patience: nat,
                        ghost server: seq<Message>)
    returns (outcome: Outcome)
    requires forall i: nat, d: int :: i >= patience ==> !service(i, d).Unparseable?
    modifies downloader
    ensures old(downloader.rows) <= downloader.rows && old(downloader.lastArchive) <= downloader.lastArchive
    ensures !(outcome.Finished? && outcome.updated) ==> downloader.lastArchive == old(downloader.lastArchive)
    ensures Honest(service, server) && AllSafe(server) && beginDate < endDate ==>
      (outcome.Finished? && outcome.updated ==>
        (Stored(server, downloader.rows, old(downloader.lastArchive), downloader.lastArchive) <==>
          Stored(server, old(downloader.rows), old(downloader.lastArchive), beginDate)))
  {
    ghost var start := Progress(beginDate, beginDate, now, true, {});
    ghost var turns;
    hide Honest, PageSafe, AllSafe, Stored;
    outcome, turns := downloader.Download(service, lastAvailable, beginDate, endDate, true, now, updated, patience);
    if outcome.Finished? && outcome.updated && Honest(service, server) && AllSafe(server) && beginDate < endDate {
      ForcedWatermarkIff(service, server, start, turns, endDate, old(downloader.rows), old(downloader.lastArchive));
    }
  }

  // ------------------------------------------------------------------- what does happen

  lemma {:induction false} WindowIsShort(server: seq<Message>, date: int)
    ensures |Window(server, date)| <= |server|
  {
    if server == [] {
    } else {
      WindowIsShort(server[..|server| - 1], date);
    }
  }

  lemma ShortIsSafe(server: seq<Message>)
    requires |server| <= PAGE_SIZE
    ensures AllSafe(server) && forall d :: FirstPage(server, d) == Window(server, d)
  {
    forall d ensures |Window(server, d)| <= PAGE_SIZE {
      WindowIsShort(server, d);
    }
    hide Window, PageSafe, AllSafe;
    FewMessagesAreSafe(server);
  }

  /** The first turn of a download when nothing at all goes wrong. */
  lemma FirstWindow(server: seq<Message>, start: Progress)
    requires start.insertionOk && start.inserted == {} && start.newest >= start.date
    ensures var service := PerfectService(server);
      && Honest(service, server) && Clean(service, start, 1)
      && Turned(service, start, 0) && Turns(service, start, 0) == start
      && Turns(service, start, 1).date == Landing(server, start, start.date)
      && Turns(service, start, 1).newest >= start.newest
  {
    var service, entries := PerfectService(server), Accepted(FirstPage(server, start.date));
    hide FirstPage, Landing, TakeAll;
    AcceptedIsOk(start, entries);
    assert Turns(service, start, 0) == start && service(0, start.date) == Page(entries);
    assert Fits(server, start, start);
    PageLands(server, start, start, entries);
    SpanIsTight(service, start, 1);
  }

  /** The backfill fails although every window is safe and nothing goes wrong: a message
      of the second day, when the last archive is of the third. */
  lemma BackfillLoses()
    ensures var server, start := [Message(0, 150000, true)], Progress(0, 200000, 300000, true, {});
      var service := PerfectService(server);
      && Honest(service, server) && AllSafe(server) && Clean(service, start, 1)
      && !Covered(server, Turns(service, start, 1), start.date)
  {
    var m := Message(0, 150000, true);
    var server, start := [m], Progress(0, 200000, 300000, true, {});
    var service := PerfectService(server);
    ShortIsSafe(server);
    FirstWindow(server, start);
    PageParts(server, start.date);
    BackfillSkips(service, server, start, 1, m);
    hide AllSafe, Honest, FirstPage, LatestValid, TakeAll, Clean, Covered;
    MissedIsNotCovered(server, Turns(service, start, 1), start.date, m);
  }

  lemma OnlyTheSecond(left: Message, right: Message)
    requires left.time == 10 && right.time == 30
    ensures FirstPage([left, right], 20) == [right]
  {
    assert [left, right][..1] == [left] && [left][..0] == [];
    assert Window([left], 20) == Window([], 20) == [];
  }

  lemma ForcedTurn(start: Progress, m: Message)
    requires start == Progress(20, 20, 40, true, {}) && m.valid && m.time == 30
    ensures Turn(start, Page(Accepted([m]))) == Progress(30, 30, 30, true, {m})
  {
    var entries := Accepted([m]);
    assert entries[0].message == Messages(entries)[0] == m;
    assert entries[..0] == [];
    assert TakeAll(start, entries) == Take(start, entries[0]);
    assert start.inserted + {m} == {m};
  }

  lemma ForcedRun(server: seq<Message>, start: Progress, m: Message)
    requires start == Progress(20, 20, 40, true, {}) && m.valid && m.time == 30
    requires FirstPage(server, 20) == [m]
    ensures var service := PerfectService(server);
      && Honest(service, server) && Clean(service, start, 1)
      && Turns(service, start, 1) == Progress(30, 30, 30, true, {m})
      && Uninterrupted(service, start, 0, 21)
  {
    FirstWindow(server, start);
    ForcedTurn(start, m);
    assert PerfectService(server)(0, 20) == Page(Accepted([m]));
    hide FirstPage, Window, TakeAll, Turn, Honest, Clean, Landing;
  }

  lemma NeverAgain(server: seq<Message>, date: int, m: Message)
    requires m.time <= date
    ensures forall later: Service, next: Progress, n: nat
      | Honest(later, server) && next.inserted == {} && next.date == date ::
      m !in Turns(later, next, n).inserted
  {
    hide Honest, Turns;
    forall later: Service, next: Progress, n: nat
      | Honest(later, server) && next.inserted == {} && next.date == date
      ensures m !in Turns(later, next, n).inserted
    {
      BeforeTheBeginning(later, server, next, n, m);
    }
  }

  /** The forced download fails although every window is safe and nothing goes wrong: the
      watermark goes from 0 to 30 over a message at 10, which no later download from
      that watermark will ever ask for. */
  lemma ForcedDownloadLeavesBehind()
    ensures var left, server := Message(0, 10, true), [Message(0, 10, true), Message(1, 30, true)];
      var start, service := Progress(20, 20, 40, true, {}), PerfectService(server);
      var p := Turns(service, start, 1);
      && Honest(service, server) && AllSafe(server) && Clean(service, start, 1)
      && p.newest == 30 && LoopEnds(p, 21) && Uninterrupted(service, start, 0, 21)
      && !Stored(server, p.inserted, 0, p.newest)
      && forall later: Service, next: Progress, n: nat
           | Honest(later, server) && next.inserted == {} && next.date == p.newest ::
           left !in Turns(later, next, n).inserted
  {
    var left, right := Message(0, 10, true), Message(1, 30, true);
    var server, start := [left, right], Progress(20, 20, 40, true, {});
    hide AllSafe, Honest, FirstPage, Clean, Turns, Uninterrupted, PerfectService;
    ShortIsSafe(server);
    OnlyTheSecond(left, right);
    ForcedRun(server, start, right);
    NeverAgain(server, 30, left);
    assert left in server;
  }

  // ------------------------------------------------------------- a window that is not safe

  lemma {:induction false} WholeWindow(server: seq<Message>, date: int)
    requires forall m :: m in server ==> InWindow(m, date)
    ensures Window(server, date) == server
  {
    if server == [] {
    } else {
      var n := |server| - 1;
      assert server == server[..n] + [server[n]];
      WholeWindow(server[..n], date);
    }
  }

  lemma {:induction false} NoneValid(ms: seq<Message>, date: int)
    requires forall m :: m in ms ==> !m.valid
    ensures LatestValid(ms, date) == date
  {
    if ms == [] {
    } else {
      NoneValid(ms[..|ms| - 1], date);
    }
  }

  /** Messages that cannot be decoded, one a second. */
  function Undecodable(n: nat): (ms: seq<Message>)
    ensures |ms| == n && forall i :: 0 <= i < n ==> ms[i] == Message(i, i + 1, false)
  {
    seq(n, i requires 0 <= i < n => Message(i, i + 1, false))
  }

  /** A page full of messages that cannot be decoded hides the valid one that follows, and
      the next window begins a day later: it is lost. */
  lemma CrowdedWindowLoses()
    ensures var server := Undecodable(200) + [Message(200, 201, true)];
      Distinct(server) && !PageSafe(server, 0) && !NothingLost(server)
  {
    var crowd, last := Undecodable(200), Message(200, 201, true);
    var server := crowd + [last];
    assert forall i :: 0 <= i < |server| ==> server[i].id == i;
    WholeWindow(server, 0);
    assert FirstPage(server, 0) == crowd;
    NoneValid(crowd, 0);
    assert LeftOut(server, 0)[0] == last;
    hide Window, FirstPage, LeftOut, LatestValid, NothingLost;
    UnsafeLoses(server, 0);
  }
}

/** What the Liveobjects downloader inserts, and what it can lose for ever, when the
    service answers each search with the first messages of the window, oldest first. */
module LiveobjectsCoverage {
  import opened Common
  import opened LiveobjectsApiDownloaders

  // ----------------------------------------------------------------- an honest service

  /** The messages of a device, in the order in which the service sorts them. */
  predicate Distinct(server: seq<Message>) {
    forall i, j :: 0 <= i < j < |server| ==> server[i] != server[j]
  }

  predicate InWindow(m: Message, date: int) {
    date < m.time <= date + 86400
  }

  function Window(server: seq<Message>, date: int): seq<Message> {
    if server == [] then []
    else
      var n := |server| - 1;
      Window(server[..n], date) + if InWindow(server[n], date) then [server[n]] else []
  }

  function FirstPage(server: seq<Message>, date: int): (page: seq<Message>)
    ensures |page| <= |Window(server, date)|
  {
    var w := Window(server, date);
    if |w| <= PAGE_SIZE then w else w[..PAGE_SIZE]
  }

  function LeftOut(server: seq<Message>, date: int): seq<Message> {
    Window(server, date)[|FirstPage(server, date)|..]
  }

  lemma {:induction false} WindowMembers(server: seq<Message>, date: int)
    ensures forall m :: m in Window(server, date) <==> m in server && InWindow(m, date)
  {
    if server == [] {
    } else {
      WindowMembers(server[..|server| - 1], date);
      assert server == server[..|server| - 1] + [server[|server| - 1]];
    }
  }

  lemma PageParts(server: seq<Message>, date: int)
    ensures FirstPage(server, date) + LeftOut(server, date) == Window(server, date)
    ensures forall m :: m in FirstPage(server, date) ==> m in server && InWindow(m, date)
  {
    WindowMembers(server, date);
  }

  function Messages(entries: seq<Entry>): (ms: seq<Message>)
    ensures |ms| == |entries| && forall i :: 0 <= i < |ms| ==> ms[i] == entries[i].message
  {
    seq(|entries|, i requires 0 <= i < |entries| => entries[i].message)
  }

  /** Each page is the first one of its window, each abandoned page a part of it. */
  ghost predicate Honest(service: Service, server: seq<Message>) {
    forall i: nat, d: int ::
      match service(i, d)
      case Page(entries) => Messages(entries) == FirstPage(server, d)
      case Unparseable(entries) => Messages(entries) <= FirstPage(server, d)
      case CurlError => true
  }

  /** The latest valid message among these, or the date itself. */
  function LatestValid(ms: seq<Message>, date: int): (t: int)
    ensures t >= date
  {
    if ms == [] then date
    else
      var n := |ms| - 1;
      var t := LatestValid(ms[..n], date);
      if ms[n].valid && ms[n].time > t then ms[n].time else t
  }

  lemma {:induction false} LatestValidIsMaximum(ms: seq<Message>, date: int)
    ensures forall m :: m in ms && m.valid ==> m.time <= LatestValid(ms, date)
    ensures LatestValid(ms, date) == date || exists m :: m in ms && m.valid && m.time == LatestValid(ms, date)
  {
    if ms == [] {
    } else {
      LatestValidIsMaximum(ms[..|ms| - 1], date);
      assert ms == ms[..|ms| - 1] + [ms[|ms| - 1]];
    }
  }

  /** No valid message is left out of the page of this window, or each one is later than
      the valid ones on it, of which there is one. */
  predicate PageSafe(server: seq<Message>, date: int) {
    var latest := LatestValid(FirstPage(server, date), date);
    forall m :: m in LeftOut(server, date) && m.valid ==> latest > date && m.time > latest
  }

  // ------------------------------------------------------------- pages, one after another

  /** Nothing went wrong in the first n turns, nor in the databases. */
  predicate Clean(service: Service, start: Progress, n: nat) {
    && (forall k :: 0 <= k < n ==> !ReplyAt(service, start, k).CurlError?)
    && Turns(service, start, n).insertionOk
  }

  lemma {:induction false} TakeAllFacts(p: Progress, entries: seq<Entry>, limit: int)
    requires p.newest <= limit && forall m :: m in Messages(entries) && m.valid ==> m.time <= limit
    ensures var q := TakeAll(p, entries);
      && q.date == p.date && p.newest <= q.newest <= limit
      && p.inserted <= q.inserted
      && (forall m :: m in q.inserted ==> m in p.inserted || (m in Messages(entries) && m.valid))
      && (q.insertionOk ==> p.insertionOk && (forall m :: m in Messages(entries) && m.valid ==>
            m in q.inserted && m.time <= q.newest))
  {
    if entries == [] {
    } else {
      var n := |entries| - 1;
      var ms := Messages(entries);
      assert ms == Messages(entries[..n]) + [entries[n].message];
      TakeAllFacts(p, entries[..n], limit);
    }
  }

  /** Where the next window begins, whatever the newest date was. */
  function Next(server: seq<Message>, date: int): (d: int)
    ensures date < d <= date + DAY
  {
    PageParts(server, date);
    LatestValidIsMaximum(FirstPage(server, date), date);
    var latest := LatestValid(FirstPage(server, date), date);
    if latest > date then latest else date + DAY
  }

  /** Never beyond what the current page can show. */
  predicate Behind(server: seq<Message>, p: Progress) {
    p.newest <= LatestValid(FirstPage(server, p.date), p.date)
  }

  lemma PageTurn(server: seq<Message>, p: Progress, entries: seq<Entry>)
    requires Behind(server, p) && Messages(entries) == FirstPage(server, p.date)
    ensures var q := Turn(p, Page(entries));
      && p.inserted <= q.inserted
      && (q.insertionOk ==>
          && p.insertionOk && q.date == Next(server, p.date) && q.newest <= q.date
          && forall m :: m in FirstPage(server, p.date) && m.valid ==> m in q.inserted)
      && forall m :: m in q.inserted ==> m in p.inserted || (m in FirstPage(server, p.date) && m.valid)
  {
    LatestValidIsMaximum(FirstPage(server, p.date), p.date);
    TakeAllFacts(p, entries, LatestValid(FirstPage(server, p.date), p.date));
    hide TakeAll, FirstPage;
  }

  lemma AbandonedTurn(server: seq<Message>, p: Progress, entries: seq<Entry>)
    requires Behind(server, p) && Messages(entries) <= FirstPage(server, p.date)
    ensures var q := Turn(p, Unparseable(entries));
      && p.inserted <= q.inserted && (q.insertionOk ==> p.insertionOk) && q.date == p.date && Behind(server, q)
      && forall m :: m in q.inserted ==> m in p.inserted || (m in FirstPage(server, p.date) && m.valid)
  {
    var page := FirstPage(server, p.date);
    assert page == Messages(entries) + page[|entries|..];
    LatestValidIsMaximum(page, p.date);
    TakeAllFacts(p, entries, LatestValid(page, p.date));
  }

  /** One turn, of either kind: the part of the past that it settles. */
  lemma HonestTurn(service: Service, server: seq<Message>, start: Progress, n: nat)
    requires Honest(service, server) && Clean(service, start, n + 1)
    requires Behind(server, Turns(service, start, n))
    ensures var p, q := Turns(service, start, n), Turns(service, start, n + 1);
      && p.insertionOk && Behind(server, q) && p.inserted <= q.inserted
      && (q.date == p.date ||
          (q.date == Next(server, p.date) && forall m :: m in FirstPage(server, p.date) && m.valid ==> m in q.inserted))
      && (q.date == p.date <==> ReplyAt(service, start, n).Unparseable?)
      && forall m :: m in q.inserted ==> m in p.inserted || (m in FirstPage(server, p.date) && m.valid)
  {
    hide TakeAll, FirstPage, LatestValid, Advance, Next;
    var p := Turns(service, start, n);
    var r := ReplyAt(service, start, n);
    if r.Page? {
      PageTurn(server, p, r.entries);
    } else {
      AbandonedTurn(server, p, r.entries);
    }
  }

  /** Each valid message after one date and up to another is there. */
  predicate Stored(server: seq<Message>, rows: set<Message>, after: int, upTo: int) {
    forall m :: m in server && m.valid && after < m.time <= upTo ==> m in rows
  }

  predicate Covered(server: seq<Message>, p: Progress, beginDate: int) {
    Stored(server, p.inserted, beginDate, p.date)
  }

  /** A safe window is emptied: each valid message up to the next window is on the page. */
  lemma SafeWindow(server: seq<Message>, date: int, m: Message)
    requires PageSafe(server, date) && m in server && m.valid && date < m.time <= Next(server, date)
    ensures m in FirstPage(server, date)
  {
    WindowMembers(server, date);
    PageParts(server, date);
  }

  /** Coverage: while nothing goes wrong and each window is safe, every valid message
      between the beginning and the date reached has been inserted. */
  lemma {:induction false} Coverage(service: Service, server: seq<Message>, start: Progress, n: nat)
    requires Honest(service, server) && start.newest <= start.date && Clean(service, start, n)
    requires forall k :: 0 <= k < n ==> PageSafe(server, Turns(service, start, k).date)
    ensures var p := Turns(service, start, n);
      p.insertionOk && p.date >= start.date && Behind(server, p) && Covered(server, p, start.date)
  {
    if n == 0 {
    } else {
      hide Honest, PageSafe, FirstPage, LatestValid, Turn, Covered, Behind, Next;
      CleanBefore(service, server, start, n);
      Coverage(service, server, start, n - 1);
      HonestTurn(service, server, start, n - 1);
      CoveredNext(server, Turns(service, start, n - 1), Turns(service, start, n), start.date);
    }
  }

  lemma CoveredNext(server: seq<Message>, p: Progress, q: Progress, beginDate: int)
    requires Covered(server, p, beginDate) && p.inserted <= q.inserted && PageSafe(server, p.date)
    requires q.date == p.date ||
      (q.date == Next(server, p.date) && forall m :: m in FirstPage(server, p.date) && m.valid ==> m in q.inserted)
    ensures Covered(server, q, beginDate)
  {
    hide PageSafe, FirstPage, Next;
    forall m | m in server && m.valid && beginDate < m.time <= q.date ensures m in q.inserted {
      if m.time > p.date {
        SafeWindow(server, p.date, m);
      }
    }
  }

  lemma CleanBefore(service: Service, server: seq<Message>, start: Progress, n: nat)
    requires n > 0 && Clean(service, start, n)
    ensures Clean(service, start, n - 1)
  {
    var p := Turns(service, start, n - 1);
    var r := service(n - 1, p.date);
    if !r.CurlError? {
      StillOk(p, r.entries);
    }
  }

  lemma {:induction false} StillOk(p: Progress, entries: seq<Entry>)
    requires TakeAll(p, entries).insertionOk
    ensures p.insertionOk
  {
    if entries == [] {
    } else {
      StillOk(p, entries[..|entries| - 1]);
    }
  }

  // --------------------------------------------------------------- what can be lost

  lemma {:induction false} WindowIsDistinct(server: seq<Message>, date: int)
    requires Distinct(server)
    ensures Distinct(Window(server, date))
  {
    if server == [] {
    } else {
      var n := |server| - 1;
      WindowIsDistinct(server[..n], date);
      WindowMembers(server[..n], date);
      assert server[n] !in server[..n];
    }
  }

  lemma NotInBoth(a: seq<Message>, b: seq<Message>, m: Message)
    requires Distinct(a + b) && m in b
    ensures m !in a
  {
    var j :| 0 <= j < |b| && b[j] == m;
    forall i | 0 <= i < |a| ensures a[i] != m {
      assert (a + b)[i] != (a + b)[|a| + j];
    }
  }

  /** What an unsafe window skips: a valid message that is not on its page, although the
      next window does not begin before it. */
  lemma UnsafeWindow(server: seq<Message>, date: int) returns (m: Message)
    requires Distinct(server) && !PageSafe(server, date)
    ensures m in server && m.valid && date < m.time <= Next(server, date) && m !in FirstPage(server, date)
  {
    var latest := LatestValid(FirstPage(server, date), date);
    m :| m in LeftOut(server, date) && m.valid && (latest <= date || m.time <= latest);
    WindowIsDistinct(server, date);
    WindowMembers(server, date);
    PageParts(server, date);
    hide Distinct, Window, FirstPage, LeftOut, LatestValid;
    NotInBoth(FirstPage(server, date), LeftOut(server, date), m);
    assert m in Window(server, date);
  }

  /** Skipped at the beginning, and left behind since. */
  predicate Skipped(server: seq<Message>, beginDate: int, p: Progress, m: Message) {
    && m !in p.inserted && m !in FirstPage(server, p.date)
    && (p.date == beginDate || p.date >= Next(server, beginDate))
  }

  lemma StillSkipped(server: seq<Message>, beginDate: int, p: Progress, q: Progress, m: Message)
    requires Skipped(server, beginDate, p, m) && m.time <= Next(server, beginDate)
    requires q.date == p.date || q.date == Next(server, p.date)
    requires forall x :: x in q.inserted ==> x in p.inserted || (x in FirstPage(server, p.date) && x.valid)
    ensures Skipped(server, beginDate, q, m)
  {
    PageParts(server, q.date);
    hide FirstPage, LatestValid;
  }

  /** Loss: a message skipped by the first window is in no later one. */
  lemma {:induction false} SkippedForEver(service: Service, server: seq<Message>, start: Progress, n: nat, m: Message)
    requires Honest(service, server) && Clean(service, start, n)
    requires start.newest <= start.date && start.inserted == {}
    requires m.time <= Next(server, start.date) && m !in FirstPage(server, start.date)
    ensures Behind(server, Turns(service, start, n)) && Skipped(server, start.date, Turns(service, start, n), m)
  {
    if n == 0 {
    } else {
      hide Honest, FirstPage, LatestValid, Turn, Behind, Next, Skipped;
      CleanBefore(service, server, start, n);
      SkippedForEver(service, server, start, n - 1, m);
      HonestTurn(service, server, start, n - 1);
      StillSkipped(server, start.date, Turns(service, start, n - 1), Turns(service, start, n), m);
    }
  }

  // ------------------------------------------------------------------- the exact limit

  /** Whatever an honest service and the databases do, a clean download from this date
      inserts each valid message between the beginning and the date reached. */
  ghost predicate NothingLost(server: seq<Message>) {
    forall service: Service, start: Progress, n: nat ::
      Honest(service, server) && start.newest <= start.date && start.inserted == {} && Clean(service, start, n)
      ==> Covered(server, Turns(service, start, n), start.date)
  }

  ghost predicate AllSafe(server: seq<Message>) {
    forall d :: PageSafe(server, d)
  }

  function Accepted(ms: seq<Message>): (entries: seq<Entry>)
    ensures Messages(entries) == ms
    ensures forall i :: 0 <= i < |entries| ==> entries[i].accepted
  {
    seq(|ms|, i requires 0 <= i < |ms| => Entry(ms[i], true))
  }

  lemma {:induction false} AcceptedIsOk(p: Progress, entries: seq<Entry>)
    requires p.insertionOk && forall i :: 0 <= i < |entries| ==> entries[i].accepted
    ensures TakeAll(p, entries).insertionOk
  {
    if entries == [] {
    } else {
      AcceptedIsOk(p, entries[..|entries| - 1]);
    }
  }

  function PerfectService(server: seq<Message>): Service {
    (i, date) => Page(Accepted(FirstPage(server, date)))
  }

  /** An unsafe window loses a message even when nothing at all goes wrong. */
  lemma UnsafeLoses(server: seq<Message>, d: int)
    requires Distinct(server) && !PageSafe(server, d)
    ensures !NothingLost(server)
  {
    var service, start := PerfectService(server), Progress(d, d, d, true, {});
    var m := UnsafeWindow(server, d);
    hide Distinct, PageSafe, FirstPage, Next, LatestValid, TakeAll, Covered;
    PerfectTurn(server, d);
    SkippedForEver(service, server, start, 1, m);
    MissedIsNotCovered(server, Turns(service, start, 1), d, m);
  }

  lemma PerfectTurn(server: seq<Message>, d: int)
    ensures var service, start := PerfectService(server), Progress(d, d, d, true, {});
      Honest(service, server) && Clean(service, start, 1) && Turns(service, start, 1).date == Next(server, d)
  {
    var service, start := PerfectService(server), Progress(d, d, d, true, {});
    hide FirstPage, Next, LatestValid, TakeAll;
    AcceptedIsOk(start, Accepted(FirstPage(server, d)));
    assert Turns(service, start, 0) == start;
    PageTurn(server, start, Accepted(FirstPage(server, d)));
  }

  lemma MissedIsNotCovered(server: seq<Message>, p: Progress, beginDate: int, m: Message)
    requires m in server && m.valid && beginDate < m.time <= p.date && m !in p.inserted
    ensures !Covered(server, p, beginDate)
  {
  }

  /** Nothing is ever lost exactly when every window is safe. */
  lemma NothingLostIff(server: seq<Message>)
    requires Distinct(server)
    ensures NothingLost(server) <==> AllSafe(server)
  {
    hide PageSafe;
    if AllSafe(server) {
      forall service: Service, start: Progress, n: nat
        | Honest(service, server) && start.newest <= start.date && start.inserted == {} && Clean(service, start, n)
        ensures Covered(server, Turns(service, start, n), start.date)
      {
        Coverage(service, server, start, n);
      }
    } else {
      var d :| !PageSafe(server, d);
      UnsafeLoses(server, d);
    }
  }

  /** Windows are safe when none holds more messages than a page. */
  lemma FewMessagesAreSafe(server: seq<Message>)
    requires forall d :: |Window(server, d)| <= 200
    ensures AllSafe(server)
  {
    forall d ensures PageSafe(server, d) {
      assert |Window(server, d)| <= PAGE_SIZE;
    }
  }

  predicate Increasing(ms: seq<Message>) {
    forall i, j :: 0 <= i < j < |ms| ==> ms[i].time < ms[j].time
  }

  /** Windows are safe when all messages are valid, no two at the same time. */
  lemma ValidMessagesAreSafe(server: seq<Message>)
    requires Increasing(server) && forall m :: m in server ==> m.valid
    ensures AllSafe(server)
  {
    forall d ensures PageSafe(server, d) {
      WindowIncreases(server, d);
      PageParts(server, d);
      LatestValidIsMaximum(FirstPage(server, d), d);
      hide Window, LatestValid;
      if LeftOut(server, d) != [] {
        LaterThanPage(FirstPage(server, d), LeftOut(server, d), d);
      }
    }
  }

  lemma LaterThanPage(page: seq<Message>, rest: seq<Message>, d: int)
    requires Increasing(page + rest) && |page| == PAGE_SIZE
    requires forall m :: m in page ==> m.valid && d < m.time
    ensures LatestValid(page, d) > d && forall m :: m in rest ==> m.time > LatestValid(page, d)
  {
    LatestValidIsMaximum(page, d);
    assert page[0] in page;
    var q :| q in page && q.time == LatestValid(page, d);
    var i :| 0 <= i < |page| && page[i] == q;
    forall m | m in rest ensures m.time > q.time {
      var j :| 0 <= j < |rest| && rest[j] == m;
      assert (page + rest)[i].time < (page + rest)[|page| + j].time;
    }
  }

  lemma {:induction false} WindowIncreases(server: seq<Message>, date: int)
    requires Increasing(server)
    ensures Increasing(Window(server, date))
  {
    if server == [] {
    } else {
      var n := |server| - 1;
      WindowIncreases(server[..n], date);
      WindowMembers(server[..n], date);
      assert forall m :: m in server[..n] ==> m.time < server[n].time;
    }
  }

  // -------------------------------------------------------------------- the watermark

  lemma {:induction false} TakeAllSpan(p: Progress, entries: seq<Entry>)
    ensures var q := TakeAll(p, entries);
      && q.newest >= p.newest && q.oldest <= p.oldest && p.inserted <= q.inserted
      && (forall m :: m in q.inserted && m !in p.inserted ==>
            q.oldest <= m.time <= q.newest && m in Messages(entries))
      && (q.newest == p.newest || exists m :: m in q.inserted && m.time == q.newest)
      && (q.oldest == p.oldest || exists m :: m in q.inserted && m.time == q.oldest)
  {
    if entries == [] {
    } else {
      var n := |entries| - 1;
      TakeAllSpan(p, entries[..n]);
      assert Messages(entries) == Messages(entries[..n]) + [entries[n].message];
    }
  }

  /** For any service: the newest date is the maximum of where it started and of the
      times of all messages inserted, and the oldest date the minimum. */
  lemma {:induction false} SpanIsTight(service: Service, start: Progress, n: nat)
    requires start.inserted == {}
    ensures var p := Turns(service, start, n);
      && p.newest >= start.newest && p.oldest <= start.oldest
      && (forall m :: m in p.inserted ==> p.oldest <= m.time <= p.newest)
      && (p.newest == start.newest || exists m :: m in p.inserted && m.time == p.newest)
      && (p.oldest == start.oldest || exists m :: m in p.inserted && m.time == p.oldest)
  {
    if n == 0 {
    } else {
      SpanIsTight(service, start, n - 1);
      var r := ReplyAt(service, start, n - 1);
      if !r.CurlError? {
        TakeAllSpan(Turns(service, start, n - 1), r.entries);
      }
      hide TakeAll;
    }
  }

  /** Asked to begin before its last archive without force, the downloader jumps to that
      archive after the first page: what lies between and is not on that page is never
      inserted. */
  lemma {:induction false} BackfillSkips(service: Service, server: seq<Message>, start: Progress, n: nat, m: Message)
    requires Honest(service, server) && start.inserted == {} && start.date < start.newest
    requires m.time <= start.newest && m !in FirstPage(server, start.date)
    ensures var p := Turns(service, start, n);
      m !in p.inserted && p.newest >= start.newest && (p.date == start.date || p.date >= start.newest)
  {
    if n == 0 {
    } else {
      BackfillSkips(service, server, start, n - 1, m);
      var p, r := Turns(service, start, n - 1), ReplyAt(service, start, n - 1);
      PageParts(server, p.date);
      assert m !in FirstPage(server, p.date);
      hide TakeAll, FirstPage;
      if !r.CurlError? {
        NotOnPage(FirstPage(server, p.date), Messages(r.entries), m);
        TakeAllSpan(p, r.entries);
        TakeAllKeepsDate(p, r.entries);
      }
    }
  }

  lemma NotOnPage(page: seq<Message>, part: seq<Message>, m: Message)
    requires part <= page && m !in page
    ensures m !in part
  {
  }

  /** For any service: a page that could be parsed moves the date strictly forward, to the
      newest message or by a whole day. */
  lemma PageAdvances(p: Progress, entries: seq<Entry>)
    ensures var q := Turn(p, Page(entries));
      q.date == (if q.newest > p.date then q.newest else p.date + 86400) && q.date >= q.newest
  {
    TakeAllKeepsDate(p, entries);
  }

  lemma {:induction false} TakeAllKeepsDate(p: Progress, entries: seq<Entry>)
    ensures TakeAll(p, entries).date == p.date
  {
    if entries == [] {
    } else {
      TakeAllKeepsDate(p, entries[..|entries| - 1]);
    }
  }

  /** When the loop over a window that was not empty ends well, all has been inserted up
      to the end asked for, and up to the newest date too: the new watermark leaves no
      valid message behind. */
  lemma WatermarkLeavesNothing(service: Service, server: seq<Message>, start: Progress, n: nat, endDate: int)
    requires Honest(service, server) && AllSafe(server)
    requires start.newest <= start.date < endDate && start.inserted == {}
    requires n > 0 && Uninterrupted(service, start, n - 1, endDate) && !ReplyAt(service, start, n - 1).CurlError?
    requires LoopEnds(Turns(service, start, n), endDate) && Turns(service, start, n).insertionOk
    ensures var p := Turns(service, start, n);
      && p.newest <= p.date && p.date >= endDate
      && Stored(server, p.inserted, start.date, endDate) && Stored(server, p.inserted, start.date, p.newest)
  {
    hide Honest, PageSafe, Turn;
    assert Clean(service, start, n);
    Coverage(service, server, start, n);
    CleanBefore(service, server, start, n);
    Coverage(service, server, start, n - 1);
    HonestTurn(service, server, start, n - 1);
    assert Turns(service, start, n).date != Turns(service, start, n - 1).date;
    PageAdvances(Turns(service, start, n - 1), ReplyAt(service, start, n - 1).entries);
  }

  /** The download of what came after the last archive. With an honest service and safe
      windows, a download that updates the watermark has stored every valid message up
      to now and up to the new watermark, which is the time of a stored message. */
  method DownloadSinceLastArchive(downloader: LiveobjectsApiDownloader, service: Service, lastAvailable: Option<int>,
                                  now: int, updated: bool, ghost patience: nat, ghost server: seq<Message>)
    returns (outcome: Outcome)
    requires forall i: nat, d: int :: i >= patience ==> !service(i, d).Unparseable?
    modifies downloader
    ensures old(downloader.rows) <= downloader.rows && old(downloader.lastArchive) <= downloader.lastArchive
    ensures !(outcome.Finished? && outcome.updated) ==> downloader.lastArchive == old(downloader.lastArchive)
    ensures outcome.Finished? && outcome.updated ==>
      || downloader.lastArchive == old(downloader.lastArchive)
      || exists m :: m in downloader.rows && m.time == downloader.lastArchive
    ensures Honest(service, server) && AllSafe(server) && old(downloader.lastArchive) < now ==>
      (outcome.Finished? && outcome.updated ==>
        && Stored(server, downloader.rows, old(downloader.lastArchive), now)
        && Stored(server, downloader.rows, old(downloader.lastArchive), downloader.lastArchive))
  {
    ghost var start := Progress(downloader.lastArchive, downloader.lastArchive, now, true, {});
    ghost var turns;
    hide Honest, PageSafe, AllSafe;
    outcome, turns :=
      downloader.Download(service, lastAvailable, downloader.lastArchive, now, false, now, updated, patience);
    SpanIsTight(service, start, turns);
    if outcome.Finished? && outcome.updated && Honest(service, server) && AllSafe(server) && start.date < now {
      WatermarkLeavesNothing(service, server, start, turns, now);
    }
  }
}

/** The Liveobjects archive downloader: windows of a day, pages of limited size, and a
    watermark. The service may answer anything; what an honest one loses is exact. */
module LiveobjectsApiDownloaders {
  import opened Common

  const PAGE_SIZE := 200
  const DAY := 86400

  /** `valid` stands for a message that could be decoded and looks valid. */
  datatype Message = Message(id: nat, time: int, valid: bool)

  /** A message of a page, and whether the databases accept its observation. */
  datatype Entry = Entry(message: Message, accepted: bool)

  /** The answer to one search. An exception abandons a page after some entries. */
  datatype Reply = Page(entries: seq<Entry>) | Unparseable(entries: seq<Entry>) | CurlError

  /** The answer at each turn of the loop, given the beginning of the window. */
  type Service = (nat, int) -> Reply

  /** The variables of the loop, and what it has inserted so far. */
  datatype Progress = Progress(date: int, newest: int, oldest: int, insertionOk: bool, inserted: set<Message>)

  datatype Outcome = NothingNew | Finished(updated: bool) | Failed

  // -------------------------------------------------------------- one turn of the loop

  function Take(p: Progress, e: Entry): Progress {
    if !e.message.valid then p
    else if !e.accepted then p.(insertionOk := false)
    else p.(
      newest := if e.message.time > p.newest then e.message.time else p.newest,
      oldest := if e.message.time < p.oldest then e.message.time else p.oldest,
      inserted := p.inserted + {e.message})
  }

  function TakeAll(p: Progress, entries: seq<Entry>): Progress {
    if entries == [] then p else Take(TakeAll(p, entries[..|entries| - 1]), entries[|entries| - 1])
  }

  /** Without progress, the date is forced a day forward. */
  function Advance(p: Progress): Progress {
    p.(date := if p.date >= p.newest then p.date + DAY else p.newest)
  }

  function Turn(p: Progress, r: Reply): Progress {
    match r
    case Page(entries) => Advance(TakeAll(p, entries))
    case Unparseable(entries) => TakeAll(p, entries)
    case CurlError => p
  }

  function Turns(service: Service, start: Progress, n: nat): Progress {
    if n == 0 then start
    else
      var p := Turns(service, start, n - 1);
      Turn(p, service(n - 1, p.date))
  }

  function ReplyAt(service: Service, start: Progress, n: nat): Reply {
    service(n, Turns(service, start, n).date)
  }

  predicate LoopEnds(p: Progress, endDate: int) {
    !p.insertionOk || p.date >= endDate
  }

  /** The first n turns went through and none of them was the last. */
  predicate Uninterrupted(service: Service, start: Progress, n: nat, endDate: int) {
    && (forall k :: 0 <= k < n ==> !ReplyAt(service, start, k).CurlError?)
    && (forall k :: 0 < k <= n ==> !LoopEnds(Turns(service, start, k), endDate))
  }

  /** Another turn follows each one that leaves the date before the end, nothing refused. */
  lemma TurnsBefore(service: Service, start: Progress, n: nat, endDate: int)
    requires n > 0 && Uninterrupted(service, start, n - 1, endDate)
    ensures forall k :: 0 < k < n ==>
      Turns(service, start, k).insertionOk && Turns(service, start, k).date < endDate
    ensures var p := Turns(service, start, n); LoopEnds(p, endDate) ==> !p.insertionOk || p.date >= endDate
  {
    hide Turns;
  }

  // ----------------------------------------------------------------------- the downloader

  class LiveobjectsApiDownloader {
    var lastArchive: int
    var rows: set<Message>
    var jobs: seq<(int, int)>
    const hasPublisher: bool

    constructor (lastArchive: int, hasPublisher: bool)
      ensures this.lastArchive == lastArchive && this.hasPublisher == hasPublisher && rows == {} && jobs == []
    {
      this.lastArchive := lastArchive;
      this.hasPublisher := hasPublisher;
      rows := {};
      jobs := [];
    }

    /** The entries of a page, one after the other. */
    method StoreEntries(entries: seq<Entry>, newestBefore: int, oldestBefore: int, okBefore: bool,
                        ghost p: Progress, ghost before: set<Message>)
      returns (newest: int, oldest: int, insertionOk: bool)
      requires p.newest == newestBefore && p.oldest == oldestBefore && p.insertionOk == okBefore
      requires rows == before + p.inserted
      modifies this`rows
      ensures var q := TakeAll(p, entries);
        && q == Progress(p.date, newest, oldest, insertionOk, q.inserted)
        && rows == before + q.inserted
    {
      newest, oldest, insertionOk := newestBefore, oldestBefore, okBefore;
      ghost var q := p;
      var i := 0;
      while i < |entries|
        invariant 0 <= i <= |entries|
        invariant q == TakeAll(p, entries[..i])
        invariant q == Progress(p.date, newest, oldest, insertionOk, q.inserted)
        invariant rows == before + q.inserted
      {
        assert entries[..i + 1][..i] == entries[..i];
        var e := entries[i];
        if e.message.valid {
          if !e.accepted {
            insertionOk := false;
          } else {
            rows := rows + {e.message};
            if e.message.time > newest {
              newest := e.message.time;
            }
            if e.message.time < oldest {
              oldest := e.message.time;
            }
          }
        }
        q := Take(q, e);
        i := i + 1;
      }
      assert entries[..i] == entries;
    }

    /** The loop over the windows. */
    method DownloadWindows(service: Service, beginDate: int, endDate: int, newestBefore: int, now: int,
                           ghost patience: nat)
      returns (failed: bool, newest: int, oldest: int, insertionOk: bool, ghost turns: nat)
      requires forall i: nat, d: int :: i >= patience ==> !service(i, d).Unparseable?
      modifies this`rows
      ensures var start := Progress(beginDate, newestBefore, now, true, {});
        && turns > 0 && Uninterrupted(service, start, turns - 1, endDate)
        && (failed <==> ReplyAt(service, start, turns - 1).CurlError?)
        && var p := Turns(service, start, turns);
        && p == Progress(p.date, newest, oldest, insertionOk, p.inserted)
        && rows == old(rows) + p.inserted
        && (!failed ==> LoopEnds(p, endDate))
    {
      hide Take, TakeAll;
      newest, oldest, insertionOk := newestBefore, now, true;
      var date := beginDate;
      var turn := 0;
      ghost var start := Progress(date, newest, oldest, insertionOk, {});
      while turn == 0 || (insertionOk && date < endDate)
        invariant var p := Turns(service, start, turn);
          && p == Progress(date, newest, oldest, insertionOk, p.inserted)
          && rows == old(rows) + p.inserted
        invariant turn > 0 ==> Uninterrupted(service, start, turn - 1, endDate)
        invariant turn > 0 ==> !ReplyAt(service, start, turn - 1).CurlError?
        decreases turn == 0, if turn < patience then patience - turn else 0, endDate - date
      {
        ghost var p := Turns(service, start, turn);
        var reply := service(turn, date);
        turn := turn + 1;
        if reply.CurlError? {
          return true, newest, oldest, insertionOk, turn;
        }
        newest, oldest, insertionOk := StoreEntries(reply.entries, newest, oldest, insertionOk, p, old(rows));
        if reply.Page? {
          date := if date >= newest then date + DAY else newest;
        }
      }
      failed := false;
      turns := turn;
    }

    /** A download. `lastAvailable` is the latest date that the service announces, when
        it answers; `now` initializes the oldest date; `updated` is the answer of the
        database to the update of the last archive. From some turn on, the service
        answers pages that can be parsed. */
    method Download(service: Service, lastAvailable: Option<int>, beginDate: int, endDate: int, force: bool,
                    now: int, updated: bool, ghost patience: nat)
      returns (outcome: Outcome, ghost turns: nat)
      requires forall i: nat, d: int :: i >= patience ==> !service(i, d).Unparseable?
      modifies this
      ensures outcome.NothingNew? <==>
        lastAvailable.Some? && lastAvailable.value <= old(lastArchive) && !force
      ensures outcome.NothingNew? || lastAvailable.None? ==>
        rows == old(rows) && lastArchive == old(lastArchive) && jobs == old(jobs)
      ensures lastAvailable.None? ==> outcome.Failed?
      ensures lastAvailable.Some? && !outcome.NothingNew? ==>
        var start := Progress(beginDate, if force then beginDate else old(lastArchive), now, true, {});
        var p := Turns(service, start, turns);
        && turns > 0 && Uninterrupted(service, start, turns - 1, endDate)
        && (outcome.Finished? ==> !p.insertionOk || p.date >= endDate)
        && (forall k :: 0 < k < turns ==>
              Turns(service, start, k).insertionOk && Turns(service, start, k).date < endDate)
        && (outcome.Failed? <==> ReplyAt(service, start, turns - 1).CurlError?)
        && rows == old(rows) + p.inserted
        && (outcome.Failed? ==> lastArchive == old(lastArchive) && jobs == old(jobs))
        && (outcome.Finished? ==>
            var moves := p.insertionOk && (!force || p.newest > old(lastArchive));
            && LoopEnds(p, endDate)
            && outcome.updated == (moves && updated)
            && lastArchive == (if moves && updated then p.newest else old(lastArchive))
            && jobs == if moves && hasPublisher then old(jobs) + [(p.oldest, p.newest)] else old(jobs))
    {
      hide Turns, LoopEnds, Uninterrupted, ReplyAt;
      turns := 0;
      if lastAvailable.None? {
        return Failed, 0;
      }
      if lastAvailable.value <= lastArchive && !force {
        return NothingNew, 0;
      }
      ghost var start := Progress(beginDate, if force then beginDate else lastArchive, now, true, {});
      var failed, newest, oldest, insertionOk;
      failed, newest, oldest, insertionOk, turns :=
        DownloadWindows(service, beginDate, endDate, if force then beginDate else lastArchive, now, patience);
      TurnsBefore(service, start, turns, endDate);
      if failed {
        return Failed, turns;
      }
      outcome := Finished(false);
      if insertionOk && (!force || newest > lastArchive) {
        if updated {
          lastArchive := newest;
          outcome := Finished(true);
        }
        if hasPublisher {
          jobs := jobs + [(oldest, newest)];
        }
      }
    }
  }
}

# A verification model of meteodata-server

The server collects observations from weather stations: it speaks the serial
protocol of the Davis VantagePro2 stations over TCP, downloads archives from
web services on a schedule, decodes radio payloads, accepts uploads, and asks
for the climatology to be recomputed when past data arrives. This project
models the parts of it where state, order or arithmetic decide whether data is
lost, duplicated or misread, and proves what those parts keep in every run.

## Layout

Each stateful C++ object is a class whose methods update its fields, proved
against specification functions; the lemmas are about those functions. Each
module below has the name of its file, up to a plural.

| theme | files |
|---|---|
| Shared definitions | `Common.dfy` |
| Cyclic redundancy check | `Crc.dfy` (table, bitwise division), `CrcProofs.dfy` (what the check detects), `VantagePro2Message.dfy` (the two loops over a buffer) |
| Dates | `Calendar.dfy`, `Timestamps.dfy` (packed dates of requests and records) |
| VantagePro2 archive download | `VantagePro2ArchivePage.dfy` (page store), `VantagePro2Protocol.dfy` (transition function over 30 states), `VantagePro2Connector.dfy` (the object), `VantagePro2Runs.dfy` (safety of all runs), `VantagePro2Decisions.dfy` (what single events decide, and from which values), `VantagePro2Conversation.dfy` (order of everything sent and logged), `VantagePro2Termination.dfy` (end of every cycle), `VantagePro2Scenarios.dfy` (two runs that fail a promise), `VantagePro2Coverage.dfy` (what the station has recorded and what the databases hold) |
| Liveobjects archive download | `LiveobjectsApiDownloader.dfy` (the loop over windows), `LiveobjectsCoverage.dfy` (what is covered, what is lost), `LiveobjectsLimits.dfy` (the exact condition of each download, and inputs that fail it) |
| Jobs | `AsyncJobPublisher.dfy` |
| Payloads | `HexParser.dfy`, `HexPayload.dfy`, `ThplnbiotMessage.dfy`, `RainfallAccounting.dfy`, `BitFields.dfy`, `BaraniAnemometer2023Message.dfy`, `BaraniMeteoAg2022Message.dfy`, `BaraniThermohygroMessage.dfy` |
| Upload and schedule | `VantagePro2HttpRequestHandler.dfy`, `DownloadScheduler.dfy` |

The connector logs everything that leaves it (messages, insertions, accepted
and rejected pages, watermarks, jobs, the closing of the socket). A reader of
that log, `VantagePro2Runs.ReadAll`, judges each entry from the earlier ones
only (`Justified`); the invariant `Inv` says that every entry of every run is
justified and that the session agrees with what the reader knows. Events are
everything the event loop can deliver: the completion of the outstanding
operation with any bytes, its failure, the expiry of a timer, a request to
stop. Nothing completes with success on a closed socket. The closing of the
socket silences only what needs it: insertions, watermarks and jobs would still
be logged, and that there is none is proved.

Times are integers: dates in seconds, readings of the clock in nanoseconds
where they are compared with dates or with each other. Rainfall is in
clicks, temperatures and the like in the integer units transmitted. Clocks,
answers of databases and of services, and delays are parameters.

## What the code does that its comments do not say

- Deadlines missed count twice, once in the timer handler and once in the error
  handler, so that five timeouts are never reached one by one
  (`TimeoutRetriedIff`).
- While an acknowledgement is awaited, an I/O error that comes after a line end
  is swallowed and the read started again (`IoErrorStopsIff`), without limit
  (`ErrorsAreSwallowedForEver`).
- A station that refuses the new time, or does not answer, counts as having taken
  it (`ClockIsSet`).
- The check of the timezone answer reads the coordinates again and accepts
  everything (`TimezoneCheckIsVacuous`).
- A download of zero pages that completes before any watermark has been written
  sets the in-memory date of the last archive to the epoch
  (`LastArchiveRegressesIff`; `ZeroPagesLoseTheDate` is such a run). The job it
  publishes ends at the epoch, which the debouncer drops
  (`JobWithoutWatermark`); the next request asks for what follows the epoch,
  and its seven bits of year make a date of 2098 of it (`EarlierDatesWrap`).
- The job of a download begins at the creation of the connector or at the
  most recent date after the first page it ever accepted, which is the stored
  date when that page holds nothing relevant, not at the oldest record inserted
  (`JobCoversIff` says when it covers all; input: `JobMissesARow`).
- The date of the newest record moves past a relevant record that is blank,
  which is not stored, or stamped with the very instant of both readings of the
  clock (`NothingSkippedIff`, `SkippedAtTheInstant`).
- The forced Liveobjects download, the one that the command line tool makes,
  moves the watermark from its old value over messages up to the beginning asked
  for, which it never fetches (`ForcedWatermarkIff`; input:
  `ForcedDownloadLeavesBehind`).
- A Liveobjects download that begins before the last archive, without force,
  skips what lies between after one page (`BackfillSkips`,
  `BackfillCoversIff`); nothing in the repository makes that call. More than
  200 messages in a window can hide one for ever (`NothingLostIff`; input:
  `CrowdedWindowLoses`).
- An exception of the jobs database leaves an interval without its timer, until
  the next request for that station (`LostTimerWaits`).
- Uploads: the result of each deletion overwrites the previous one, so only the
  last day decides (`LastDayDecides`) and a row may survive a successful upload
  (`RangeReplacedIff`; input: `SuccessLeavesARow`); a page of older records moves the date of
  the last archive back (`LastArchiveMovesBackIff`), one without valid records
  to the epoch (`EmptyPageResets`); a size error is announced and the page
  handled all the same (`PostArchivePage`).
- The scheduler serves the next slot exactly when delay and download last less
  than the period minus the offset (`NextSlotIff`).
- The last byte of a MeteoHelix payload is never parsed
  (`BaraniThermohygroMessage.Ingest`).
- Little-endian parsing lets a blank take the place of a digit in its pair
  (`LittleEndianReads`, `BlankTakesTheDigit`).
- Four lengths of NB-IoT payload that hold no data point pass the check and stand
  for 613 million points (`ShortPayloads`); two of them reset the cached count
  of clicks (`ShortPayloadResetsTheCache`).
- The Weatherlink v2 scheduler declares a second `_mustStop` that hides the one
  set by `stop()` (src/davis/weatherlink_apiv2_download_scheduler.h:79), so its
  loops over the stations are never interrupted; the model's loops have no exit.

## Model

| member | source | states |
|---|---|---|
| Crc.TableIsPolynomial | src/davis/vantagepro2_message.h:300-325 | each of the 256 constants is the remainder of its index times x^16, divided bit by bit by x^16 + x^12 + x^5 + 1 (section 2 of ITU-T V.41) |
| VantagePro2Message.ValidateCRC | src/davis/vantagepro2_message.cpp:367-378 | the loop over a buffer accepts exactly the contents whose polynomial is a multiple of the generator |
| VantagePro2Message.ComputeCRC | src/davis/vantagepro2_message.cpp:380-392 | two bytes are written in place, nothing else changes, and the buffer is then valid |
| VantagePro2Message.SealIsUniqueAndIdempotent | src/davis/vantagepro2_message.cpp:380-392 | no other two bytes make the buffer valid, and computing them again changes nothing |
| CrcProofs.CrcIsRemainder | src/davis/vantagepro2_message.cpp:367-378 | the table-driven loop is the bitwise division with zero initial value, for messages of any length |
| CrcProofs.CrcIsAugmentedRemainder | src/davis/vantagepro2_message.cpp:367-378 | the result is the remainder of the message followed by sixteen zero bits |
| CrcProofs.ValidIffSealed | src/davis/vantagepro2_message.cpp:367-392 | valid if and only if the last two bytes are the ones that `computeCRC` writes there |
| CrcProofs.ValidIffDivisible | src/davis/vantagepro2_message.cpp:367-378 | valid if and only if some polynomial multiplied by the generator gives the message |
| CrcProofs.CrcIsLinear | src/davis/vantagepro2_message.cpp:367-378 | the check of a bytewise XOR is the XOR of the checks |
| CrcProofs.BurstDetected | src/davis/vantagepro2_message.cpp:367-378 | any change confined to sixteen consecutive bits of a valid message, of any length and at any position, makes it invalid |
| CrcProofs.AdjacentBytesDetected | src/davis/vantagepro2_message.cpp:367-378 | any change of two adjacent bytes, those of the check included, makes a valid message invalid |
| Calendar.CalendarBijection | src/davis/vantagepro2_connector.cpp:92-103 | from 2000 on, days and civil dates correspond one to one, in the same order |
| Calendar.DaysInClosedForm | src/davis/vantagepro2_connector.cpp:92-103 | the number of a day, counted year by year and month by month, is the closed form in years that begin in March, from 1970-01-01 |
| Timestamps.RequestRoundTrip | src/davis/vantagepro2_connector.cpp:88-109 | the date packed into an archive request, decoded with the fields of an archive record, is the instant floored to the minute |
| Timestamps.RecordStandsFor | src/davis/vantagepro2_archive_page.cpp:54-55 | the instant of a record whose words hold a year, a month, a day, an hour and a minute, in seconds since 1970, in closed form |
| Timestamps.RequestOnTheWire | src/davis/vantagepro2_connector.cpp:104-108 | the six bytes sent carry a valid check, and their words give back the two fields |
| Timestamps.EarlierDatesWrap | src/davis/vantagepro2_connector.cpp:104 | a date from 1872 to 1999 is packed into the words of the same day 128 years later |
| Timestamps.WeatherlinkIsRequest | src/davis/weatherlink_downloader.cpp:118-135 | the 32-bit Weatherlink timestamp is made of the same two words |
| Timestamps.WeatherlinkOrder | src/davis/weatherlink_downloader.cpp:118-135 | its integer order is the chronological order, minute by minute |
| VantagePro2ArchivePages.VantagePro2ArchivePage.IsRelevant | src/davis/vantagepro2_archive_page.cpp:49-63 | a record is relevant after the beginning and up to now, and only such a record raises the most recent time |
| VantagePro2ArchivePages.VantagePro2ArchivePage.Prepare | src/davis/vantagepro2_archive_page.cpp:83-88 | the beginning and the most recent time are both set to the date given |
| VantagePro2ArchivePages.VantagePro2ArchivePage.StorePage | src/davis/vantagepro2_archive_page.cpp:65-81 | stops at the first insertion refused; the rows inserted and the most recent time are those of the records reached |
| VantagePro2ArchivePages.PageIsRead | src/davis/vantagepro2_archive_page.h:121-127 | any five records sealed between a sequence number and four bytes of padding make a valid page; each is read where it was put, its date and its time from two bytes, the low one first, a dash exactly when these are all ones, blank exactly when they are all zeros |
| VantagePro2ArchivePages.PageRoundTrip | src/davis/vantagepro2_archive_page.cpp:44-55 | on such a page, a record whose words are those of a request for some instant stands for that instant floored to the minute |
| VantagePro2ArchivePages.RefusedAt | src/davis/vantagepro2_archive_page.cpp:65-81 | at the first refusal the page is given up: exactly the wanted records before it have been inserted, and the most recent time takes it in |
| VantagePro2ArchivePages.LatestIsMaximum | src/davis/vantagepro2_archive_page.cpp:49-63 | the most recent time is the maximum of its initial value and the times of the records that are no dashes, after the beginning and not after the clock |
| VantagePro2ArchivePages.AcceptedPageIsComplete | src/davis/vantagepro2_archive_page.cpp:65-81 | an accepted page has in both databases all its records that are neither dashes nor blank, after the beginning, not after the first reading of the clock and before the second one, and nothing else |
| VantagePro2ArchivePages.AcceptedIff | src/davis/vantagepro2_archive_page.cpp:65-81 | a page is accepted if and only if the databases refuse none of its wanted records nor the batch |
| VantagePro2ArchivePages.NothingSkippedIff | src/davis/vantagepro2_archive_page.cpp:49-81 | every relevant record is stored unless one is blank or not before the reading of the clock that the validity test takes |
| VantagePro2ArchivePages.SkippedAtTheInstant | src/davis/vantagepro2_archive_page.cpp:49-81 | with a clock that does not go back, a relevant record is left out if and only if it is blank or stamped with the very instant of both readings |
| VantagePro2Connectors.VantagePro2Connector.Deliver | src/davis/vantagepro2_connector.cpp:157-342 | each event, swallowed ones included, does to the object exactly what the protocol's step does to a session, and keeps the invariant of all runs |
| VantagePro2Connectors.VantagePro2Connector.HandleEvent | src/davis/vantagepro2_connector.cpp:404-984 | in each of the 30 states, for success, timeout and error |
| VantagePro2Connectors.VantagePro2Connector.HandleGenericErrors | src/davis/vantagepro2_connector.cpp:351-402 | success changes nothing, a timeout goes back to the state of restart until the fifth, any other error stops |
| VantagePro2Connectors.VantagePro2Connector.CheckAck | src/davis/vantagepro2_connector.cpp:462-482 | a wrong acknowledgement is counted and asked for again, or stops the session at the fifth |
| VantagePro2Connectors.VantagePro2Connector.Stop | src/davis/vantagepro2_connector.cpp:204-221 | the state is STOPPED, nothing is pending, the socket is closed and logged as such once |
| VantagePro2Connectors.VantagePro2Connector.ReceiveStation | src/davis/vantagepro2_connector.cpp:483-531 | unknown stations are dropped, known ones give the polling period and the last archive |
| VantagePro2Connectors.VantagePro2Connector.ReceiveTimezone | src/davis/vantagepro2_connector.cpp:588-629 | prepares the page store and chooses between the archive and the clock; the choice is `ArchiveIffLate` |
| VantagePro2Decisions.ArchiveIffLate | src/davis/vantagepro2_connector.cpp:483-629 | in every run where the database has answered a polling period in minutes and a last archive, whatever happens in between, the timezone answer prepares the page store with that archive, and wakes the station up for its archive if and only if more than that many minutes have passed since, in nanoseconds, otherwise for its clock |
| VantagePro2Decisions.StationDecides | src/davis/vantagepro2_connector.cpp:483-531 | right coordinates of a known station lead to its configuration, of an unknown one to the end of the session; damaged ones are asked for again four times |
| VantagePro2Decisions.StartedFrom | src/davis/vantagepro2_connector.cpp:56-85 | a connector begins by waking the station up, the clock to be set, its log at the second of its creation |
| VantagePro2Connectors.VantagePro2Connector.ReceiveSize | src/davis/vantagepro2_connector.cpp:721-753 | the countdown of pages starts from a count whose check is right, otherwise the download is aborted |
| VantagePro2Runs.AnnouncedIffChecked | src/davis/vantagepro2_connector.cpp:721-753 | a number of pages is announced and acknowledged exactly when the check of its six bytes is right, otherwise the download is aborted |
| VantagePro2Runs.DamagedSizeIsRefused | src/davis/vantagepro2_connector.cpp:721-753 | an announcement damaged by a burst of up to sixteen bits aborts the download |
| VantagePro2Connectors.VantagePro2Connector.StoreArchivePage | src/davis/vantagepro2_connector.cpp:771-820 | the page is stored, the watermark moved, the span widened, the countdown decremented, the answer sent |
| VantagePro2Connectors.VantagePro2Connector.RefuseArchivePage | src/davis/vantagepro2_connector.cpp:821-842 | an invalid page is counted as an error, refused, and changes nothing else |
| VantagePro2Connectors.VantagePro2Connector.FinishDownload | src/davis/vantagepro2_connector.cpp:844-884 | the last archive becomes the newest date, a job is published for a span in the past |
| VantagePro2Decisions.JobIffPast | src/davis/vantagepro2_connector.cpp:855-884 | in every run, a completed download is followed by a job if and only if there is a publisher and the day on which the span begins is over, and then by the setting of the clock if and only if it has been requested |
| VantagePro2Runs.StepKeeps | src/davis/vantagepro2_connector.cpp:404-984 | every event, in every state that satisfies it, keeps the invariant of the session and its log |
| VantagePro2Runs.RunKeeps | src/davis/vantagepro2_connector.cpp:404-984 | so does every sequence of events |
| VantagePro2Runs.WatermarksRise | src/davis/vantagepro2_connector.cpp:782-820 | in every run, each watermark written is after the epoch, above all earlier ones, not below the prepared beginning, and equal to the maximum of that beginning and of all relevant times of the pages accepted |
| VantagePro2Runs.WatermarksIncrease | src/davis/vantagepro2_connector.cpp:782-800 | of two watermarks of a run, the later one is strictly greater |
| VantagePro2Runs.AcceptedRecordsAreStored | src/davis/vantagepro2_connector.cpp:782-820 | when a page is accepted, and for ever after, each of its wanted records is in both databases |
| VantagePro2Runs.RequestsResumeAtTheWatermark | src/davis/vantagepro2_connector.cpp:656-678 | each archive request asks for what follows the last watermark; without one, for what follows the prepared beginning as long as no download has completed, and the epoch once one has |
| VantagePro2Runs.JobsEndAtTheWatermark | src/davis/vantagepro2_connector.cpp:862-873 | in every run, each job ends at the last watermark, or at the epoch when there is none; it begins at the creation of the connector, or at the most recent date after the first page accepted if that is earlier: the latest relevant record of that page, or the prepared beginning |
| VantagePro2Runs.JobCoversIff | src/davis/vantagepro2_connector.cpp:795-873 | the span of a job holds all rows inserted so far if and only if none is earlier both than the creation and than the most recent date after the first page accepted |
| VantagePro2Scenarios.JobMissesARow | src/davis/vantagepro2_connector.cpp:795-873 | for any last archive after the epoch, a run of twenty events in which a download of one page of two records publishes a job that begins and ends at the later one: the earlier one is a row outside its job |
| VantagePro2Runs.JobWithoutWatermark | src/davis/vantagepro2_connector.cpp:862-873 | without watermark, a job is accepted by the debouncer exactly when it begins at the epoch or before, on a day that is over |
| VantagePro2Runs.DamagedPageIsRefused | src/davis/vantagepro2_connector.cpp:771-842 | a page damaged by a burst of up to sixteen bits is refused and nothing but the error count changes; what an undamaged one holds is `PageIsRead` |
| VantagePro2Runs.PagesConserved | src/davis/vantagepro2_connector.cpp:721-753 | at any moment of a download the pages left and the pages accepted add up to the count announced, none is read when none is left, and each has been answered |
| VantagePro2Runs.CompletedMeansAllPages | src/davis/vantagepro2_connector.cpp:844-884 | a download completes only after exactly as many accepted pages as announced |
| VantagePro2Runs.ClosedForGood | src/davis/vantagepro2_connector.cpp:809-820 | after the socket is closed nothing is sent, stored or published, no date moves, whatever happens, although a page that could not be stored overwrites STOPPED |
| VantagePro2Runs.ClosedStep | src/davis/vantagepro2_connector.cpp:204-221 | one more event then leads to STOPPED with nothing pending |
| VantagePro2Runs.TimezoneCheckIsVacuous | src/davis/vantagepro2_connector.cpp:588-629 | in every run the timezone answer is accepted |
| VantagePro2Runs.LastArchiveRegressesIff | src/davis/vantagepro2_connector.cpp:855-870 | a download that completes sets the date of the last archive back exactly when no watermark has been written and that date is after the epoch |
| VantagePro2Scenarios.ZeroPagesLoseTheDate | src/davis/vantagepro2_connector.cpp:855-873 | for any last archive after the epoch, a run of 17 events whose completion sets that date to the epoch; the next event publishes a job that ends there, and the 29th sends a request from the epoch, without any watermark |
| VantagePro2Runs.TimeoutRetriedIff | src/davis/vantagepro2_connector.cpp:157-178 | a missed deadline is retried exactly when at most two timeouts have been counted, and counts two |
| VantagePro2Decisions.TimeoutEnds | src/davis/vantagepro2_connector.cpp:541-984 | in the middle of a download, of the setting of the clock or of the answer to the main mode, a missed deadline closes the socket at once and for good |
| VantagePro2Decisions.StopEnds | src/davis/vantagepro2_connector.cpp:204-221 | asked to stop, in any state, the connector closes its socket, which is logged once, and nothing is pending any more |
| VantagePro2Decisions.FlushAsksAgain | src/davis/vantagepro2_connector.cpp:331-349 | after the pause that follows a fault, the exchange starts again with its request and nothing else has changed |
| VantagePro2Decisions.TickAsksForTheArchive | src/davis/vantagepro2_connector.cpp:420-435 | each measurement begins by waking the station up for its archive, a timeout counted |
| VantagePro2Runs.WrongAckRetriedIff | src/davis/vantagepro2_connector.cpp:462-482 | a wrong acknowledgement is asked for again from the start of its exchange exactly when at most three answers have been wrong, and never for the archive parameters |
| VantagePro2Runs.IoErrorStopsIff | src/davis/vantagepro2_connector.cpp:301-316 | an I/O error stops the session except after a line end in place of an acknowledgement, and at the end of setting the clock |
| VantagePro2Decisions.LineEndIsSkipped | src/davis/vantagepro2_connector.cpp:301-316 | a line end in place of an acknowledgement is read and nothing happens |
| VantagePro2Decisions.ClockIsSet | src/davis/vantagepro2_connector.cpp:949-977 | whatever the station answers to the new time, even nothing, the request is over, its timer armed for the next one, and the cycle ended |
| VantagePro2Conversation.EveryRunIsAConversation | src/davis/vantagepro2_connector.cpp:404-984 | the log of every run is a word of an automaton that knows no state of the connector: each request follows the one that the protocol wants, the setting of the clock only the configuration or a download, pages an announced count, a job a completed download, and nothing at all the closing |
| VantagePro2Conversation.ArchiveFollowsADownload | src/davis/vantagepro2_connector.cpp:862-884 | after a download that is not followed by the setting of the clock, the log goes on with a wake-up and an archive request |
| VantagePro2Conversation.StepTalks | src/davis/vantagepro2_connector.cpp:404-984 | each event keeps the log in the phase that the state is in |
| VantagePro2Termination.StepDecreases | src/davis/vantagepro2_connector.cpp:404-984 | every handled event decreases a lexicographic measure: errors left, then phase, pages and sub-state |
| VantagePro2Termination.MeasurePaysForEvents | src/davis/vantagepro2_connector.cpp:404-984 | along any unsettled run, the number of events handled is at most the decrease of the measure |
| VantagePro2Termination.CycleEnds | src/davis/vantagepro2_connector.cpp:351-402 | every run that handles more events than a constant has reached the wait for the next measurement, or stopped; swallowed errors are not handled events |
| VantagePro2Termination.ErrorsAreSwallowedForEver | src/davis/vantagepro2_connector.cpp:301-316 | after a line end read in place of an acknowledgement, any number of I/O errors leaves the session as it is, handling none |
| VantagePro2Coverage.NothingIsLeftBehind | src/davis/vantagepro2_connector.cpp:656-820 | in every run with an honest station, whatever fails and is retried, each of its records after the stored date and up to the most recent date seen is in both databases while the session lasts |
| VantagePro2Coverage.CompletedDownloadHoldsAll | src/davis/vantagepro2_connector.cpp:721-884 | once the last page announced has been accepted, every record after the stored date that the station had when it announced them is in both databases |
| VantagePro2Coverage.WatermarkLeavesNothing | src/davis/vantagepro2_connector.cpp:782-820 | whatever happens, after the end of the session too, each record of an honest station between the stored date and the last watermark is in both databases |
| VantagePro2Coverage.MeetCatches | src/davis/vantagepro2_connector.cpp:404-984 | every event, with an honest station, keeps that account |
| VantagePro2Coverage.ClockAheadLosesARecord | src/davis/vantagepro2_archive_page.cpp:49-81 | two pages of a station whose clock is ahead: the record of the first one is passed over |
| VantagePro2Coverage.OnePageRun | src/davis/vantagepro2_connector.cpp:404-984 | the run of one page is such a run, with an honest station |
| LiveobjectsApiDownloaders.LiveobjectsApiDownloader.StoreEntries | src/liveobjects/liveobjects_api_downloader.cpp:206-226 | the rows inserted, the newest and oldest dates and the success flag after a page |
| LiveobjectsApiDownloaders.LiveobjectsApiDownloader.DownloadWindows | src/liveobjects/liveobjects_api_downloader.cpp:148-243 | the loop terminates for every service that answers finitely many pages that cannot be parsed, and ends where its condition says |
| LiveobjectsApiDownloaders.LiveobjectsApiDownloader.Download | src/liveobjects/liveobjects_api_downloader.cpp:125-261 | when the watermark moves, to what, and which job is published, for every outcome |
| LiveobjectsCoverage.PageAdvances | src/liveobjects/liveobjects_api_downloader.cpp:227-233 | each page parsed moves the date strictly forward, to the newest message or, without one, by 86400 seconds |
| LiveobjectsCoverage.SpanIsTight | src/liveobjects/liveobjects_api_downloader.cpp:216-222 | the newest and oldest dates are the maximum and the minimum of their starts and of the times inserted, for any service |
| LiveobjectsCoverage.Coverage | src/liveobjects/liveobjects_api_downloader.cpp:148-243 | while nothing fails and each window is safe, every valid message up to the date reached has been inserted |
| LiveobjectsCoverage.NothingLostIff | src/liveobjects/liveobjects_api_downloader.cpp:148-243 | no clean download ever loses a message if and only if every window is safe: its valid messages beyond the first page are later than those on it |
| LiveobjectsLimits.CrowdedWindowLoses | src/liveobjects/liveobjects_api_downloader.cpp:148-243 | a window of 200 messages that cannot be decoded and a valid one is not safe, and loses the valid one |
| LiveobjectsLimits.CoveredIff | src/liveobjects/liveobjects_api_downloader.cpp:148-243 | a clean download, wherever it begins, has inserted every valid message up to the date reached if and only if each window that it has left was emptied by its page |
| LiveobjectsLimits.DownloadCoversIff | src/liveobjects/liveobjects_api_downloader.cpp:148-243 | for a download that does not begin before its newest date: if and only if each page turned was safe |
| LiveobjectsCoverage.FewMessagesAreSafe | src/liveobjects/liveobjects_api_downloader.h:103-104 | windows of at most 200 messages are safe |
| LiveobjectsCoverage.ValidMessagesAreSafe | src/liveobjects/liveobjects_api_downloader.cpp:157-184 | so are all windows when all messages are valid, at distinct times |
| LiveobjectsCoverage.SkippedForEver | src/liveobjects/liveobjects_api_downloader.cpp:227-233 | what an unsafe window skips is in no later page |
| LiveobjectsCoverage.BackfillSkips | src/liveobjects/liveobjects_api_downloader.cpp:149-151 | begun before the last archive without force, a download never inserts what lies between and was not on the first page |
| LiveobjectsLimits.BackfillCoversIff | src/liveobjects/liveobjects_api_downloader.cpp:148-243 | such a download has inserted every valid message up to the date reached if and only if all those up to the last archive, and up to the latest one of the first page, were on that page and the later pages turned were safe |
| LiveobjectsLimits.BackfillLoses | src/liveobjects/liveobjects_api_downloader.cpp:148-243 | a download where nothing fails, each window is safe, and a message is lost all the same |
| LiveobjectsCoverage.WatermarkLeavesNothing | src/liveobjects/liveobjects_api_downloader.cpp:243-255 | a loop that ends well has inserted every valid message up to the end asked for and up to the newest date |
| LiveobjectsCoverage.DownloadSinceLastArchive | src/liveobjects/liveobjects_api_downloader.cpp:120-123 | the watermark only rises, to the time of a stored row, and leaves no valid message behind |
| LiveobjectsLimits.ForcedWatermarkIff | src/liveobjects/liveobjects_api_downloader.cpp:149-255 | a forced download that ends well leaves no valid message behind its new watermark if and only if all those between the old watermark and the beginning asked for had been stored before |
| LiveobjectsLimits.DownloadForced | src/liveobjects/liveobjects_api_downloader_standalone.cpp:224 | the call that the command line tool makes: the watermark only rises, and the same condition decides what it leaves behind |
| LiveobjectsLimits.ForcedDownloadLeavesBehind | src/liveobjects/liveobjects_api_downloader_standalone.cpp:224 | an input where nothing fails and each window is safe, the watermark passes over a message, and no later download from it ever inserts that message |
| AsyncJobPublishers.AsyncJobPublisher.PublishJobsForPastDataInsertion | src/async_job_publisher.cpp:48-74 | a request of a past day widens the pending interval of its station and restarts its timer, another one changes nothing |
| AsyncJobPublishers.AsyncJobPublisher.DoPublish | src/async_job_publisher.cpp:76-93 | publishes the two jobs and forgets the interval; an exception keeps the interval and loses its timer |
| AsyncJobPublishers.PendingIsHull | src/async_job_publisher.cpp:48-93 | in every interleaving, an interval is pending exactly when accepted requests wait, and it is their hull; its timer is due a minute after the last of them, unless an exception has come since |
| AsyncJobPublishers.PublishedIsHull | src/async_job_publisher.cpp:76-93 | the two jobs published, or the first of them when the second throws, are the hull of all requests waiting; none is published exactly when all of them are too recent or the first one throws |
| AsyncJobPublishers.NeverTooRecent | src/async_job_publisher.cpp:83-86 | while the clock does not go back, accepted requests are never dropped |
| AsyncJobPublishers.NoRequestIsLost | src/async_job_publisher.cpp:48-93 | while the clock does not go back, each accepted request is still waiting, or inside two jobs published after it |
| AsyncJobPublishers.QuietForAMinute | src/async_job_publisher.cpp:95-108 | a timer that fires when due finds only requests at least 60 seconds old |
| AsyncJobPublishers.LostTimerWaits | src/async_job_publisher.cpp:76-108 | after an exception the requests of a station wait, and no job is published for it, until another request is accepted, when timers fire only if armed and due |
| AsyncJobPublishers.TimersAreLost | src/async_job_publisher.cpp:76-108 | two events after which a timer is lost |
| HexParser.InputStream.Parse | src/hex_parser.h:45-63 | reads the number of the next characters that are not blank and consumes just those |
| HexParser.InputStream.ParseLittleEndian | src/hex_parser.h:85-113 | pairs of characters, least significant first, with the treatment of blanks that the code has |
| HexParser.InputStream.Ignore | src/hex_parser.h:151-161 | consumes the next characters that are not blank, as many as asked |
| HexParser.Characters | src/hex_parser.h:51-61 | exactly these characters are digits, in either case, each with its place as value, and exactly these are blank |
| HexParser.CaseDoesNotMatter | src/hex_parser.h:56-61 | strings that differ only in the case of their digits are read as the same number |
| HexParser.BlanksAreSkipped | src/hex_parser.h:45-63 | on any stream, what is read and what is left are those of the stream without blanks, cut at the length asked or at the end |
| HexParser.Hexify | src/http_utils.h:90-102 | prints two lower-case digits for each byte |
| HexParser.HexifyIsHex | src/http_utils.h:90-102 | what is printed are the sixteen-based digits of the big-endian number |
| HexParser.ParseUndoesHexify | src/hex_parser.h:45-63 | parsing gives back the number printed, whatever blanks are spread over it |
| HexParser.ParseLittleUndoesHexify | src/hex_parser.h:85-113 | little-endian parsing gives back the little-endian number, without blanks |
| HexParser.LittleEndianReads | src/hex_parser.h:85-113 | on any stream, the number is the sum of the pairs read, blanks giving no digit, in the width of the destination; the pairs are the fewest that make up for length and blanks, and at most one character too many is consumed |
| HexParser.NoBlankNoDifference | src/hex_parser.h:85-113 | when none of the first characters, as many as the length, is blank, number and rest are those of the stream without blanks |
| HexParser.BlankTakesTheDigit | src/hex_parser.h:91-97 | the smallest case: a blank before two digits changes the number read unless the digits are zero |
| ThplnbiotMessages.ThplnbiotMessage.ValidateInput | src/dragino/thplnbiot_message.cpp:48-65 | length and characters, with the wrap-around of unsigned sizes |
| ThplnbiotMessages.ThplnbiotMessage.FillPoints | src/dragino/thplnbiot_message.cpp:97-133 | the reverse loop leaves the points in chronological order |
| ThplnbiotMessages.ThplnbiotMessage.ComputeRainfall | src/dragino/thplnbiot_message.cpp:141-161 | the pass in place over the points gives each new one its clicks since the previous one |
| ThplnbiotMessages.ThplnbiotMessage.Ingest | src/dragino/thplnbiot_message.cpp:67-162 | the points of any payload that passes the check, with the battery level on the last one, accounted for when a reference is cached; a negative count of points throws; what it leaves of a packet is `PacketIngested` |
| ThplnbiotMessages.ThplnbiotMessage.CacheValues | src/dragino/thplnbiot_message.cpp:164-174 | the last valid point becomes the reference |
| RainfallAccounting.ValidLengths | src/dragino/thplnbiot_message.cpp:50-54 | which lengths pass: whole points, and three short lengths through the wrap-around |
| RainfallAccounting.CountIsExactIff | src/dragino/thplnbiot_message.cpp:79 | the number of points is the one that the length holds if and only if it is an integer of 32 bits |
| RainfallAccounting.ShortPayloads | src/dragino/thplnbiot_message.cpp:50-139 | the lengths that pass without holding a point stand for 613566753 to 613566755 points, all but two of them zeros at the epoch |
| RainfallAccounting.ShortPayloadResetsTheCache | src/dragino/thplnbiot_message.cpp:79-174 | after a payload of 20 or 48 characters the cached count is zero, at the epoch |
| RainfallAccounting.PacketRoundTrip | src/dragino/thplnbiot_message.cpp:79-139 | a packet of any number of points, printed newest first and decoded, gives back those points in order and the battery level |
| RainfallAccounting.PacketIngested | src/dragino/thplnbiot_message.cpp:97-139 | for every packet and cache, what ingesting leaves: each point with the time, count, temperature, humidity and intensity sent, in chronological order, the battery level on the last one only, and no rainfall without a cached value |
| RainfallAccounting.PacketRainfall | src/dragino/thplnbiot_message.cpp:141-161 | the rainfall of each of these points: the clicks since the point before it, or since the reference for the first newer one, none when the counter has gone down, none for points not newer |
| RainfallAccounting.RainfallOf | src/dragino/thplnbiot_message.cpp:141-161 | the same for any valid points in chronological order; a point whose counter has gone down is where the next one counts from |
| RainfallAccounting.ReadingRoundTrip | src/dragino/thplnbiot_message.cpp:111-130 | any reading, negative temperatures and missing values included, is decoded to the values that were encoded |
| RainfallAccounting.DecodingIsInjective | src/dragino/thplnbiot_message.cpp:111-130 | no two transmitted readings decode to the same point |
| RainfallAccounting.PacketIsBatch | src/dragino/thplnbiot_message.cpp:97-139 | the readings of a counter, sent and decoded, are what the accounting expects |
| RainfallAccounting.BatchClicks | src/dragino/thplnbiot_message.cpp:141-161 | one payload counts the clicks from the reference to its last point, or none |
| RainfallAccounting.ReplayAddsNothing | src/dragino/thplnbiot_message.cpp:150-153 | points not newer than the reference are left as they are |
| RainfallAccounting.CacheAfterPayload | src/dragino/thplnbiot_message.cpp:164-174 | after ingesting and caching, the reference is the last point of the payload |
| RainfallAccounting.ClicksAccounted | src/dragino/thplnbiot_message.cpp:141-174 | over any payloads the total is the difference of the counter plus what the cache forgot when a payload ended earlier than the previous one |
| RainfallAccounting.ExactlyOnceIff | src/dragino/thplnbiot_message.cpp:141-174 | each click is counted exactly once if and only if no payload ends with a smaller count than was cached before it |
| HexPayloads.ValidateInput | src/liveobjects/liveobjects_message.cpp:56-73 | accepts one of the expected lengths, hexadecimal digits only |
| HexPayloads.BytesInPrinted | src/hex_parser.h:45-63 | reading byte by byte undoes printing byte by byte |
| BaraniAnemometer2023Messages.BaraniAnemometer2023Message.Ingest | src/barani/barani_anemometer_2023_message.cpp:53-137 | thirteen fields in their ranges whose concatenation, with the documented widths, is the 96-bit payload, each at its bits |
| BaraniAnemometer2023Messages.PackedIsInjective | src/barani/barani_anemometer_2023_message.cpp:79-136 | different fields never share a payload |
| BaraniAnemometer2023Messages.FieldsAtBits | src/barani/barani_anemometer_2023_message.cpp:79-136 | each field is found at the bits of the payload that the format gives it, by number |
| BaraniAnemometer2023Messages.PayloadRoundTrip | src/barani/barani_anemometer_2023_message.cpp:69-136 | the fields packed and printed are the only ones that can be found in the payload |
| BaraniMeteoAg2022Messages.BaraniMeteoAg2022Message.Ingest | src/barani/barani_meteoag_2022_message.cpp:48-111 | twelve fields whose concatenation is the 104-bit payload, each at its bits; valid exactly when the selectors E, F and G are among the listed ones and E and F are not both 7 |
| BaraniMeteoAg2022Messages.PackedIsInjective | src/barani/barani_meteoag_2022_message.cpp:68-95 | different fields never share a payload |
| BaraniMeteoAg2022Messages.FieldsAtBits | src/barani/barani_meteoag_2022_message.cpp:68-95 | each field is found at the bits of the payload that the format gives it, by number |
| BaraniMeteoAg2022Messages.PayloadRoundTrip | src/barani/barani_meteoag_2022_message.cpp:62-99 | the fields packed and printed are the only ones that can be found in the payload |
| BaraniThermohygroMessages.BaraniThermohygroMessage.Ingest | src/barani/barani_thermohygro_message.cpp:49-133 | ten fields whose concatenation is the first 80 bits, each at its bits, and the clicks since a reference, across a roll-over, if and only if that is less than 86400 seconds old |
| BaraniThermohygroMessages.BaraniThermohygroMessage.CacheValues | src/barani/barani_thermohygro_message.cpp:135-144 | a valid message becomes the reference, another one changes nothing |
| BaraniThermohygroMessages.FieldsAtBits | src/barani/barani_thermohygro_message.cpp:89-120 | each field is found at the bits of the payload that the format gives it, by number |
| BaraniThermohygroMessages.ElapsedIsModulo | src/barani/barani_thermohygro_message.cpp:121-127 | the difference of two readings is the true number of clicks modulo 256 |
| BaraniThermohygroMessages.RollingCounterIsExactIff | src/barani/barani_thermohygro_message.cpp:78-87 | over any messages the sum never exceeds the true clicks, and equals them if and only if each message that brings some brings fewer than 256 and is processed less than 86400 seconds after the time of the previous reference |
| VantagePro2HttpRequestHandlers.VantagePro2HttpRequestHandler.ReadRecords | src/davis/vantagepro2_http_request_handler.cpp:166-198 | in order, exactly the records that are neither blank nor stamped at the reading of the clock or later; the span is from the oldest of them, or now, to the newest, or the epoch |
| VantagePro2HttpRequestHandlers.VantagePro2HttpRequestHandler.DeleteSpan | src/davis/vantagepro2_http_request_handler.cpp:200-211 | the loop over days covers the whole span: exactly the rows of the span whose day could be deleted are gone |
| VantagePro2HttpRequestHandlers.VantagePro2HttpRequestHandler.InsertAll | src/davis/vantagepro2_http_request_handler.cpp:213-215 | insertions stop at the first failure |
| VantagePro2HttpRequestHandlers.VantagePro2HttpRequestHandler.PostArchivePage | src/davis/vantagepro2_http_request_handler.cpp:132-239 | rows, other database, date, job and response for every combination of answers; on success each record in the past and not blank is a row, rows are new or changed only through such records, and rows go only between two of them, from the present on or up to the epoch |
| VantagePro2HttpRequestHandlers.PostTheRest | src/davis/vantagepro2_http_request_handler.cpp:163-239 | two calls in the same state, one without the records that are blank or not in the past: rows, other database, date, jobs and response are the same |
| VantagePro2HttpRequestHandlers.UploadTouches | src/davis/vantagepro2_http_request_handler.cpp:163-216 | which rows an upload may add, change and remove, successful or not, in terms of the records as they were posted |
| VantagePro2HttpRequestHandlers.PutIsLastWins | src/davis/vantagepro2_http_request_handler.cpp:213-215 | of several records of one time the last one stays, other rows are untouched |
| VantagePro2HttpRequestHandlers.SpanHolds | src/davis/vantagepro2_http_request_handler.cpp:180-190 | the span is the tight one of the valid records |
| VantagePro2HttpRequestHandlers.RangeReplacedIff | src/davis/vantagepro2_http_request_handler.cpp:163-216 | a successful upload leaves over the span exactly the page's records, and the rest unchanged, if and only if no other row survives a failed deletion |
| VantagePro2HttpRequestHandlers.SuccessLeavesARow | src/davis/vantagepro2_http_request_handler.cpp:200-216 | an upload that succeeds although the deletion of its first day fails, and a row of the span that survives it |
| VantagePro2HttpRequestHandlers.SamePageChangesNothing | src/davis/vantagepro2_http_request_handler.cpp:163-216 | once the span has been replaced, uploading the same records again, at any later time, changes no row |
| VantagePro2HttpRequestHandlers.PostTwice | src/davis/vantagepro2_http_request_handler.cpp:132-239 | two calls with the same valid records: when both succeed and no row has survived the first one, the rows and the other database are those after one upload, and the date of the last archive is the newest date if either update was accepted |
| VantagePro2HttpRequestHandlers.SpanIsOfThePage | src/davis/vantagepro2_http_request_handler.cpp:166-190 | the span does not depend on the time of the upload |
| VantagePro2HttpRequestHandlers.LastDayDecides | src/davis/vantagepro2_http_request_handler.cpp:203-215 | the upload goes on exactly when the deletion of the last day succeeds, and puts nothing when it fails |
| VantagePro2HttpRequestHandlers.LastArchiveMovesBackIff | src/davis/vantagepro2_http_request_handler.cpp:217-222 | an upload moves the date of the last archive back exactly when it succeeds, the date can be updated and all its valid records are older |
| VantagePro2HttpRequestHandlers.EmptyPageResets | src/davis/vantagepro2_http_request_handler.cpp:166-222 | without valid record no row changes, and when the batch and the update succeed the date of the last archive becomes the epoch |
| DownloadSchedulers.WeatherlinkApiv2DownloadScheduler.Start | src/abstract_download_scheduler.cpp:67-77 | the first firing is planned |
| DownloadSchedulers.WeatherlinkApiv2DownloadScheduler.Stop | src/abstract_download_scheduler.cpp:79-84 | nothing is planned any more |
| DownloadSchedulers.WeatherlinkApiv2DownloadScheduler.WaitUntilNextDownload | src/abstract_download_scheduler.cpp:95-106 | plans the next firing two minutes after a multiple of five minutes, within seven minutes, unless stopped |
| DownloadSchedulers.WeatherlinkApiv2DownloadScheduler.CheckDeadline | src/abstract_download_scheduler.cpp:108-136 | a due firing downloads every due station once and plans the next one; a cancelled or early one does nothing |
| DownloadSchedulers.WeatherlinkApiv2DownloadScheduler.DownloadArchives | src/davis/weatherlink_apiv2_download_scheduler.cpp:110-122 | the archives of the stations due at that minute, in order |
| DownloadSchedulers.WeatherlinkApiv2DownloadScheduler.DownloadRealTime | src/davis/weatherlink_apiv2_download_scheduler.cpp:92-108 | the real-time data of the other stations, every fifteen minutes |
| DownloadSchedulers.ArchivesIff | src/davis/weatherlink_apiv2_download_scheduler.cpp:110-122 | an archive is downloaded exactly for an archived station, at the minutes of the hour less than five above a multiple of its polling period: always, when that is at most five |
| DownloadSchedulers.RealTimesIff | src/davis/weatherlink_apiv2_download_scheduler.cpp:92-108 | real-time data are downloaded exactly for the other stations, at the minutes 0 to 4, 15 to 19, 30 to 34 and 45 to 49 |
| DownloadSchedulers.InOrder | src/davis/weatherlink_apiv2_download_scheduler.cpp:92-122 | the stations are served in the order of the list |
| DownloadSchedulers.FiringIsAligned | src/abstract_download_scheduler.cpp:100-103 | a firing is an offset after a multiple of the period, at most a period and an offset away |
| DownloadSchedulers.NextSlotIff | src/abstract_download_scheduler.cpp:95-136 | the next slot is served if and only if delay and download last less than the period minus the offset |
| DownloadSchedulers.NoDrift | src/abstract_download_scheduler.cpp:95-136 | whatever the delays, every firing of every schedule is aligned |
| DownloadSchedulers.FiringsByTheClock | src/abstract_download_scheduler.cpp:95-136 | every firing of every schedule is planned two minutes after a multiple of five minutes |
| DownloadSchedulers.EverySlotIff | src/abstract_download_scheduler.cpp:95-136 | no slot is ever missed if and only if every delay and download are short enough |
| DownloadSchedulers.ExactlyOncePerWindow | src/davis/weatherlink_apiv2_download_scheduler.cpp:80-122 | a polling period that is a multiple of five minutes dividing the hour is found due by exactly one firing in each of its windows |
| DownloadSchedulers.RunSchedule | src/abstract_download_scheduler.cpp:67-136 | the downloads of the scheduler, over any delays and durations, are those of its firings, in order |
| DownloadSchedulers.DownloadedExactlyOnce | src/davis/weatherlink_apiv2_download_scheduler.cpp:80-122 | when all activations are short enough, that log holds exactly one download of each station in each window, of its archive at its own period or of its real-time data every fifteen minutes |

## Left out

- Sockets, timers, HTTP, TLS, JSON and XML: replaced by events, replies and parameters; one pair of readings of the clock stands for those taken while a page is stored, one reading for those within any other event.
- Databases: rows are maps or sets, an operation that fails changes nothing, and a batch insertion is all or nothing; cassobs is not part of this model.
- Interleavings inside a handler of the connector, events queued before a cancellation, `reload()` and the restart of a stopped connector.
- Watermarks are logged when their update is asked for, whether the database accepts it or not, as `_newestArchive` is moved in both cases.
- The contents of the requests of the connector other than the date of the archive request, and the setting of the clock itself.
- VantagePro2Coverage.Honest: what the station records is given; it answers with its records later than the date asked for, in order, and its clock is not ahead (`ClockAheadLosesARecord` says why). The ring buffer and the sequence numbers of its pages are not modelled.
- Time zones with rules: zones have a fixed offset. Timestamps.RequestRoundTrip: dates run from 2000 to 2127, as the seven bits of the year allow; a request from the epoch is outside, and what it becomes is `EarlierDatesWrap`.
- Floating point: physical units, dew point, heat index, evapotranspiration, sea-level pressure, the battery estimate of the anemometer and the direction offset.
- Liveobjects: a message inserted whose values could then not be cached, which abandons the page before the newest date is updated.
- AsyncJobPublisher: the reference to the station that a timer keeps after its caller has returned.
- ThplnbiotMessages.ThplnbiotMessage.Ingest: running out of memory while hundreds of millions of points are allocated for a short payload.
- HexParser.ParseLittleUndoesHexify: blanks, which the little-endian parser does not skip; `LittleEndianReads` says what is read then. A shift by the width of an integer or more, undefined in the original, is taken to shift everything out.
- BaraniThermohygroMessages.BaraniThermohygroMessage.Ingest: the rainfall is uninitialized without a reference, which the model represents by keeping what was there.
- VantagePro2HttpRequestHandlers: authorization, routing, and the rows of the TimescaleDB database that a deletion may or may not remove.
- DownloadSchedulers.WeatherlinkApiv2DownloadScheduler.Start: the list of stations is given; polling periods of zero, by which the original divides, are excluded.
- Other protocols and connectors, the control socket, monitoring, exports: they would add members of the kinds above.

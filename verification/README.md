# Mini-PGW: a verified model of the session server

Mini-PGW receives UDP packets that carry a BCD-packed IMSI. It decodes the IMSI, looks it up in a blacklist,
creates or refreshes a session in a store, and writes a CDR log. A cleaner thread removes expired sessions;
the HTTP `/stop` handler stops the UDP loop and offloads what is left. This project models those parts in
Dafny and proves what they guarantee, first with each operation atomic and then at the grain at which the
threads interleave.

## How the project is laid out

| file | what it models |
|---|---|
| `TextOrder.dfy`, `Calendar.dfy` | lexicographic order; `YYYY-MM-DD HH:MM:SS` stamps and why their order is the order of time |
| `Bcd.dfy` | the client's encoder and the server's decoder |
| `SessionStores.dfy`, `SessionTimes.dfy` | the in-memory and the SQLite store as classes over one abstract table; sessions with integer times |
| `Serialised.dfy` | the session manager with atomic operations over integer time |
| `ManagerSpec.dfy`, `TextTime.dfy` | the same manager over text times, and the proof that both agree |
| `CdrLog.dfy`, `CdrQueue.dfy` | the CDR file and the writer object; the queue under concurrency |
| `SessionManagers.dfy`, `Servers.dfy` | the `SessionManager`, `Blacklist`, `UdpServer` and `HttpApi` objects |
| `Interleaved.dfy` | all threads at the grain of the code: mutex steps, single store calls, single CDR writes |
| `Races.dfy`, `Levels.dfy` | runs of the interleaved model piece by piece; every serialised run is one of them |
| `Conservation.dfy`, `Losses.dfy` | the account of every session over every interleaving; which servers can lose one |
| `Alternation.dfy`, `Expiry.dfy`, `Visibility.dfy` | record order, time stamps and what subscribers see, over every interleaving |
| `Rounds.dfy` | one touch, one call of offload_rate and one cleaner round, over every interleaving |
| `Admission.dfy`, `Shutdown.dfy` | who gets in, and how the server stops, over every interleaving |
| `Locks.dfy` | the three mutexes and deadlock |

## What the code does against what its comments say

- `touch_session` returns true for a refresh as well as for a creation; the comment in
  `include/pgw/session_manager.hpp:29-31` says true only for a creation. So every admitted packet is answered "created".
- A refresh overwrites `created_at`.
- The interface comment in `include/pgw/session_store.hpp:27` gives cleanup as `expires_at <= now`. The in-memory
  store deletes only `expires_at < now`. The two differ by one second, which `is_active` cannot show.
- `created, expired, created, ...` holds per IMSI while operations are atomic. Interleaved, one worker and the cleaner
  are enough to break it: a refresh between the cleaner's record and its deletion keeps a session that the log has as
  expired, and the cleaner records its expiry again later (`RefreshRaceFromTheStart`). A stop handler and the cleaner, or
  two stop handlers, may also both record one session (`OffloadRaceFromTheStart`, `TwoStopsFromTheStart`).
  `AlternatesExactly` says which servers are free of this, and `AlternatesOverRun` which runs are.
- A session may vanish with a "created" record and no "expired" one, when its save comes after its own expiry, between
  the cleaner's listing and its deletion. No timeout prevents it (`LossFromTheStart`, `NothingVanishesExactly`).
  `BooksBalance` is the exact account, and `OnlyStaleSavesAreLost` bounds the losses by such saves.
- With one UDP worker, as the server has, a session's expiry never moves back, although both clocks are read before
  the mutex is taken, unless it was restored with an expiry further ahead than a timeout and is touched. With two
  workers it can move back in any case (`NeverMovesBackExactly`).
- "All sessions offloaded" is final only if no worker then has a touch in hand that is still fresh: `StopIsFinalExactly`.
- Blacklisting an IMSI of more than 32 symbols has no effect on clients that send it: `LongListingIsVain`.
- A datagram of no bytes gets no reply.

## Premises

- Time is a whole number of seconds that does not run backwards, at one fixed offset from UTC. Text comparison of
  stamps is proved to be comparison of times up to the end of the year 9999, and `OrderBreaksInYear10000` shows that
  it stops there. The models over text carry that bound; the models over integers have none.
- `ManagerSpec`, `TextTime` and `SessionManagers` take the way a time prints as a parameter. `RenderKeepsOrder` shows that
  the server's way meets the assumption made of it.
- The interleaved model compares integer times; `ComparesByText` shows that the stores' comparisons of printed stamps
  come out the same in every state it reaches before the year 10000. It has one stop flag, any number of workers and
  stop handlers, one cleaner, and lets the clock move between any two steps. A store lists sessions in any order.

## Model

| member | source | states |
|---|---|---|
| `Calendar.RenderOrder` | src/server/session_manager.cpp:15-29 | for all instants from 1970 to the end of 9999, the printed stamps compare exactly as the instants do, and are equal exactly for equal instants |
| `Calendar.RenderReadsBack` | src/server/session_manager.cpp:15-20 | every stamp up to the end of 9999 has 19 characters with the separators of `%F %T` in their places, and the numbers read off its six fields are a date and a time of day that make up the instant |
| `Calendar.KnownDays` | src/server/session_manager.cpp:18 | the day numbers of the first of each month, of leap days and of other known dates |
| `Calendar.YearsUpTo9999` | src/server/session_manager.cpp:15-20 | the bound on instants is exactly the bound on four-digit years |
| `Calendar.OrderBreaksInYear10000` | src/server/in_memory_session_store.cpp:6-8 | a concrete pair of instants beyond the bound that text order gets wrong |
| `Calendar.OrderHoldsExactly` | src/server/in_memory_session_store.cpp:6-8 | the stamps of all instants up to a bound compare as the instants do if and only if the bound is before the year 10000 |
| `Calendar.DayNumberOfDateOfDay` | src/server/session_manager.cpp:18 | the calendar reached by turning pages agrees with the closed-form day count |
| `Calendar.DateOfDayOfDayNumber` | src/server/session_manager.cpp:18 | the other round trip: every date from 1970 on is the date of its day count |
| `Calendar.RenderHasNoSeparators` | src/server/session_manager.cpp:15-20 | no stamp holds a comma or a line end |
| `TextOrder.LessOfConcat` | src/server/in_memory_session_store.cpp:6-8 | text order of concatenations with equally long heads goes by heads, then tails |
| `TextOrder.DecimalOrder` | src/server/session_manager.cpp:18 | equally long numerals sort like their numbers |
| `Bcd.DecodeImsi` | src/server/udp_server.cpp:78-85 | the decoder loop computes the concatenation of the non-filler halves, low half first |
| `Bcd.ImsiToBcd` | src/client/client.cpp:32-40 | the encoder loop computes the pairwise packing |
| `Bcd.EncodeLength` | src/client/client.cpp:32-40 | an encoding has half as many bytes as the IMSI has symbols, rounded up |
| `Bcd.DecodeReceivedEncode` | src/server/udp_server.cpp:60-85 | decoding what the 16-byte buffer holds of an encoding gives the first 32 symbols |
| `Bcd.ReceivedBytes` | src/server/udp_server.cpp:60-69 | a datagram is read whole up to 16 bytes, and its first 16 bytes beyond |
| `Bcd.ArrivesUpTo32` | src/server/udp_server.cpp:60-85 | an IMSI of up to 32 symbols arrives whole, and of a longer one the first 32 symbols |
| `Bcd.EncodeLayout` | src/client/client.cpp:35-37 | byte i carries symbol 2i in its low half and symbol 2i + 1, or 15 if there is none, in its high half, as distances from '0' |
| `Bcd.DecodeLayout` | src/server/udp_server.cpp:80-84 | a byte decodes to its low half first, each half as a distance from '0', and 15 to nothing |
| `Bcd.RoundTripExactly` | src/server/udp_server.cpp:60-85 | an IMSI arrives as sent if and only if it has at most 32 symbols, all from '0' to '>' |
| `Bcd.NoCollision` | src/client/client.cpp:32-40 | two IMSIs of any length have the same encoding if and only if they are the same |
| `Bcd.ReceivedCollidesExactly` | src/server/udp_server.cpp:60-69 | the server receives the same bytes of two IMSIs if and only if their first 32 symbols are the same |
| `Bcd.DecodeGivesSymbols` | src/server/udp_server.cpp:79-85 | a decoded IMSI has only symbols from '0' to '>' |
| `Bcd.ReverseRoundTripExactly` | src/client/client.cpp:34-38 | re-encoding a decoded datagram gives it back if and only if filler occurs only in the last high half |
| `Bcd.DecodeIsIdempotent` | src/server/udp_server.cpp:79-85 | decoding, encoding and decoding again changes nothing, for every byte sequence |
| `SessionStores.InMemorySessionStore.LoadSessions` | src/server/in_memory_session_store.cpp:10-19 | the loop lists each active session once |
| `SessionStores.InMemorySessionStore.SaveSession` | src/server/in_memory_session_store.cpp:21-25 | the session replaces any with its key, nothing else changes |
| `SessionStores.InMemorySessionStore.DeleteSession` | src/server/in_memory_session_store.cpp:27-30 | the key is gone, the result tells whether it was there |
| `SessionStores.InMemorySessionStore.SessionExists` | src/server/in_memory_session_store.cpp:32-35 | true exactly for stored keys, expired or not |
| `SessionStores.InMemorySessionStore.CleanupExpiredSessions` | src/server/in_memory_session_store.cpp:37-46 | erasing while iterating leaves exactly the sessions that do not expire before now |
| `SessionStores.InMemorySessionStore.LoadExpiredSessions` | src/server/in_memory_session_store.cpp:48-57 | the loop lists each session that expires before now once |
| `SessionStores.SqliteSessionStore.LoadSessions` | src/server/sqlite_session_store.cpp:113-135 | stepping through the rows lists each active session of the table once |
| `SessionStores.SqliteSessionStore.SaveSession` | src/server/sqlite_session_store.cpp:55-74 | REPLACE keeps the key unique and updates the abstract table at that key |
| `SessionStores.SqliteSessionStore.DeleteSession` | src/server/sqlite_session_store.cpp:76-87 | DELETE removes the key from the abstract table and reports success either way |
| `SessionStores.SqliteSessionStore.SessionExists` | src/server/sqlite_session_store.cpp:89-100 | true exactly for keys of the abstract table |
| `SessionStores.SqliteSessionStore.CleanupExpiredSessions` | src/server/sqlite_session_store.cpp:102-111 | DELETE leaves exactly the sessions that expire after now |
| `SessionStores.SqliteSessionStore.LoadExpiredSessions` | src/server/sqlite_session_store.cpp:33-52 | lists each session that expires by now once |
| `SessionStores.ReplaceUpdatesTable` | src/server/sqlite_session_store.cpp:63 | REPLACE on rows is an update of the map they stand for |
| `SessionStores.WhereListsWhereTable` | src/server/sqlite_session_store.cpp:36-49 | a WHERE clause on rows with unique keys is a filter on the map, and lists it without repetition |
| `SessionStores.ListDeterminesTable` | include/pgw/session_store.hpp:19-30 | a list without repetition determines the table |
| `SessionStores.ListsLength` | include/pgw/session_store.hpp:19-20 | a load returns as many sessions as there are |
| `SessionStores.SqlitePartition` | src/server/sqlite_session_store.cpp:39-116 | SQLite's active and expired rows partition the table at every now |
| `SessionStores.InMemoryGap` | src/server/in_memory_session_store.cpp:10-57 | the in-memory store leaves out of both lists exactly the sessions that expire at now, and keeps them |
| `TextTime.RenderKeepsOrder` | src/server/session_manager.cpp:15-29 | the server's stamps meet what the text models assume of a stamp |
| `TextTime.StoresDifferByOneSecond` | src/server/sqlite_session_store.cpp:33-111 | what the in-memory store lists and deletes at now + 1 is what SQLite does at now |
| `TextTime.FreshSessionIsActive` | src/server/session_manager.cpp:55-56 | a session is active when saved if and only if the timeout is at least a second |
| `TextTime.StepByText` | src/server/session_manager.cpp:54-149 | each operation on text stamps is possible exactly when, and does exactly what, it does on integer times |
| `TextTime.RunByText` | src/server/session_manager.cpp:54-149 | so does every run |
| `TextTime.AnswersByHistory` | src/server/session_manager.cpp:54-110 | after every run, on text stamps and on either store, is_active answers true if and only if the last event about the IMSI is a touch less than the timeout ago, or there is none and it was restored with a later expiry |
| `ManagerSpec.ExpiryRecordsInOrder` | src/server/session_manager.cpp:136-140 | a round appends one "expired" record for each listed session, in order, all with the round's time |
| `TextTime.ServersLookAlike` | src/server/session_manager.cpp:86-91 | with atomic cleaner rounds, two servers, one on each store, with the same touches, offloads and clock but any two cleaner schedules, answer every is_active alike |
| `TextTime.SubscribersCannotTell` | src/server/session_manager.cpp:86-149 | the same for every way of printing times that keeps their order |
| `Serialised.CleanerIsInvisible` | src/server/session_manager.cpp:131-149 | dropping all atomic cleaner rounds and swapping the store gives a possible run that shows the same active sessions |
| `Serialised.StoresAndSchedulesLookAlike` | src/server/session_manager.cpp:86-149 | runs of atomic operations with the same other events end with the same active sessions, stamps included |
| `Serialised.ActiveExactlyByHistory` | src/server/session_manager.cpp:54-110 | an IMSI is active if and only if the last event about it is a touch less than the timeout ago, or there is none and it was restored with a later expiry |
| `Serialised.LogAlternates` | src/server/session_manager.cpp:54-144 | after every run each IMSI's records alternate, it is stored if and only if its last record is "created", and creations minus expiries is the store's size |
| `Serialised.EmptyLogMatches` | src/server/session_manager.cpp:38-42 | a manager on an empty store starts in that condition |
| `Serialised.SessionsAreStamped` | src/server/session_manager.cpp:54-84 | every session stored since the start has created_at at most now and expires_at equal to created_at plus the timeout |
| `Serialised.ExpiryNeverDecreases` | src/server/session_manager.cpp:61-63 | over any part of a run of atomic operations in which a session stays stored its expiry does not move back, unless it was restored with one further ahead than a timeout |
| `Serialised.FarExpiryMovesBack` | src/server/session_manager.cpp:61-63 | that exception is exact: the first touch of such a restored session moves its expiry back |
| `CdrLog.ReadsBackExactly` | src/server/cdr_writer.cpp:51-54 | splitting the file gives the records written if and only if no field holds a separator |
| `CdrLog.UniquelyParseable` | src/server/cdr_writer.cpp:51-54 | two logs without separators in their fields never make the same file |
| `CdrLog.KnownLine` | src/server/cdr_writer.cpp:51-54 | a known record makes the line with timestamp, IMSI and action, in this order, between commas and before a line end |
| `CdrLog.CdrWriter.Write` | src/server/cdr_writer.cpp:27-33 | the record joins the end of the queue and of the history |
| `CdrLog.CdrWriter.PutNext` | src/server/cdr_writer.cpp:42-55 | the first queued record becomes the next line of the file |
| `CdrLog.CdrWriter.Close` | src/server/cdr_writer.cpp:18-25 | the destructor returns with every record ever written in the file, in order, after what the file held before |
| `CdrQueue.NothingLostNothingReordered` | src/server/cdr_writer.cpp:18-58 | in every interleaving of producers, writer and stop request, file, record in hand and queue make up the history of write calls, and no wake-up is lost |
| `CdrQueue.ExitMeansDrained` | src/server/cdr_writer.cpp:44-45 | the writer leaves only after a stop request and then the file is the whole history |
| `CdrQueue.StopRaisesFlag` | src/server/cdr_writer.cpp:18-23 | after every run with a stop request in it the flag is up |
| `CdrQueue.StopLetsWriterFinish` | src/server/cdr_writer.cpp:18-25 | after every run from the start with a stop request in it, the writer has left or can go on to leave by its own steps alone, with every record written so far in the file |
| `CdrQueue.StoppedWriterDrains` | src/server/cdr_writer.cpp:41-57 | after the stop request and without further writes the writer needs exactly the measured number of steps, can always take the next, and leaves the whole history in the file |
| `CdrQueue.LateRecordsStayQueued` | src/server/cdr_writer.cpp:27-45 | a record written after the writer has left never reaches the file |
| `CdrQueue.LateRecordIsLost` | src/server/cdr_writer.cpp:27-45 | a producer can still write after the writer has left, and its record stays in the queue in every run from there |
| `SessionManagers.SessionManager.TouchSession` | src/server/session_manager.cpp:54-84 | returns true always; the IMSI is stored with the present time and the present time plus the timeout, nothing else changes in the store, and a "created" record with the present time is appended if and only if the IMSI was not stored |
| `SessionManagers.SessionManager.IsActive` | src/server/session_manager.cpp:86-91 | true if and only if the IMSI is stored with an expiry after now |
| `SessionManagers.SessionManager.ExpireSession` | src/server/session_manager.cpp:125-129 | removes the one key and appends its "expired" record |
| `SessionManagers.SessionManager.LogExpired` | src/server/session_manager.cpp:136-140 | appends one "expired" record for each listed session, in the order of the list |
| `SessionManagers.SessionManager.CleanerRound` | src/server/session_manager.cpp:132-143 | on either store, one round is a possible Clean event with exactly its effect |
| `SessionManagers.OffloadIsOneRemoval` | src/server/session_manager.cpp:125-128 | an offload event removes one active session and records it as expired at the present time, and nothing else |
| `SessionManagers.SessionManager.OffloadRate` | src/server/session_manager.cpp:93-110 | removes and records different active sessions, at most the rate, fewer only if none is left; a rate of 0 does nothing |
| `SessionManagers.SessionManager.GracefulStop` | src/server/session_manager.cpp:112-123 | ends with no active session, having removed and recorded only sessions active at the start, in no more calls than needed while the clock stands still |
| `SessionManagers.OffloadingMakesProgress` | src/server/session_manager.cpp:114-122 | every turn of the stop loop leaves fewer active sessions, which is why the loop ends |
| `SessionManagers.FrozenRate` | src/server/session_manager.cpp:93-110 | with the clock standing still one call removes min(rate, remaining) |
| `SessionManagers.FrozenStop` | src/server/session_manager.cpp:112-123 | with the clock standing still a stop removes exactly the active sessions, in the ceiling of their number over the rate |
| `SessionManagers.MovingStop` | src/server/session_manager.cpp:112-123 | with the clock moving each initially active session ends recorded and removed, or past its expiry; the others are untouched |
| `SessionManagers.Pacing` | src/server/session_manager.cpp:95-108 | offloading n sessions pauses at most 1000 n / rate ms and more than n (1000 - rate) / rate |
| `SessionManagers.FullBatchPacing` | src/server/session_manager.cpp:108 | a full batch pauses more than 1000 - rate and at most 1000 ms |
| `Interleaved.RunKeepsMutex` | src/server/session_manager.cpp:58-105 | in every reachable state the manager's mutex has at most one owner, exactly the owner is inside a locked block, and a creating touch saves an IMSI that is not stored |
| `Rounds.SaveKeepsItsTimes` | src/server/session_manager.cpp:55-77 | over every interleaving a touch saves its session with its first reading of the clock as creation time and its second plus the timeout as expiry, however long it took |
| `Rounds.RecordKeepsItsTime` | src/server/session_manager.cpp:55-78 | and its "created" record carries the first reading |
| `Rounds.AtMostRatePerCall` | src/server/session_manager.cpp:93-110 | over every interleaving a stop handler deletes at most `rate` sessions between two looks of graceful_stop, and counts them right wherever it still may delete |
| `Rounds.CallEndsExactly` | src/server/session_manager.cpp:94-107 | a call of offload_rate ends with exactly `rate` deletions, or with fewer at a choice that finds nobody active, and otherwise goes on |
| `Rounds.UdpStopsFirst` | src/server/http_api.cpp:57-69 | over every interleaving a stop handler looks for sessions only after the UDP flag is cleared |
| `Rounds.RoundKeepsItsTime` | src/server/session_manager.cpp:133-140 | over every interleaving and however long a round takes, its records are of the sessions listed, in order, all with the time read at its start |
| `Levels.PacketIsAtomic` | src/server/udp_server.cpp:65-95 | an uninterrupted packet, step by step, is one touch event of the serialised model |
| `Levels.OffloadIsAtomic` | src/server/session_manager.cpp:96-107 | a stop handler's first removal, uninterrupted from the start of the handler, is one offload event |
| `Levels.TouchIsAtomic` | src/server/udp_server.cpp:64-95 | an uninterrupted turn of the UDP loop that lets a packet in is one touch event and leaves the worker where it was |
| `Levels.RoundIsAtomic` | src/server/session_manager.cpp:132-143 | an uninterrupted cleaner round is one Clean event and loses nothing |
| `Levels.SerialisedRunsInterleave` | src/server/session_manager.cpp:54-149 | every serialised run from any restored store, whose IMSIs a client can send and whose rate is not 0 if it offloads, is a run of the interleaved model from the start of a server with a thread for each event, with the same store, log and clock |
| `Conservation.BooksBalance` | src/server/session_manager.cpp:54-144 | over every interleaving and for each IMSI, creations, the restored session, revivals and vain records equal expiries, the stored session and losses, with what is pending on either side |
| `Conservation.OnlyStaleSavesAreLost` | src/server/session_manager.cpp:54-143 | no more sessions of an IMSI are lost than were saved after their expiry had passed |
| `Conservation.NoSilentDisappearance` | src/server/session_manager.cpp:54-144 | creations and the restored session are at most expiries, written or pending, the stored session and the stale saves; with saves that expire later than now the last term is 0 |
| `Races.StaleSaveIsLost` | src/server/session_manager.cpp:55-58 | a touch held up before the mutex past its expiry, between the cleaner's listing and deletion, vanishes with only a "created" record |
| `Losses.AccountedExactly` | src/server/session_manager.cpp:54-144 | at any moment of any run, creations and the restored session are at most expiries, written or pending, and the stored session if and only if the losses are covered by pending "created" records, revivals and vain records |
| `Losses.LossFromTheStart` | src/server/session_manager.cpp:54-143 | a whole run from the start in which a session vanishes, for any worker, admitted packet, timeout, rate, store and restored sessions |
| `Losses.NothingVanishesExactly` | src/server/session_manager.cpp:54-143 | no session ever vanishes, in any run and for any IMSI, if and only if no packet is let in or no worker is there to take it |
| `Alternation.AlternatesOverRun` | src/server/session_manager.cpp:54-143 | in any interleaved run the records of an IMSI alternate, "expired" first if it was restored, if and only if after each prefix of the run what is stored, lost and pending, less what was revived or recorded in vain, is 0 or 1 |
| `Alternation.AlternatesExactly` | src/server/session_manager.cpp:54-143 | the records of every IMSI alternate in all runs of a server if and only if it can touch nothing, for want of a worker or of packets let in, and no stop handler with a rate of at least 1 finds a restored session active |
| `Alternation.RefreshRaceFromTheStart` | src/server/session_manager.cpp:61-143 | a run from the start with one worker and the cleaner that records two expiries in a row, for any admitted packet, timeout, store and restored sessions |
| `Alternation.OffloadRaceFromTheStart` | src/server/session_manager.cpp:96-143 | a run from the start with one stop handler and the cleaner that records two expiries in a row |
| `Alternation.TwoStopsFromTheStart` | src/server/session_manager.cpp:96-106 | a run from the start in which two stop handlers record one session as expired |
| `Expiry.SessionsAreStamped` | src/server/session_manager.cpp:55-62 | over every interleaving and with any number of workers, a session saved since the start has a creation time from the start on, and an expiry at least a timeout after it and at most a timeout after now |
| `Expiry.NeverMovesBackExactly` | src/server/session_manager.cpp:55-63 | over every interleaving no step ever moves the expiry of a stored session back if and only if nothing can be touched, or there is one worker and no session that can be touched was restored with an expiry further ahead than a timeout |
| `Expiry.ExpiryNeverDecreases` | src/server/session_manager.cpp:55-77 | so then over any part of an interleaved run in which a session stays stored |
| `Expiry.TwoWorkersMoveBack` | src/server/session_manager.cpp:55-63 | with two workers there is a run from the start in which the later save has the earlier expiry |
| `Expiry.ComparesByText` | src/server/in_memory_session_store.cpp:6-57 | in every interleaved state before the year 10000 each store's text comparisons give the active, expired and unexpired sessions that comparing times gives |
| `Visibility.SweepIsInvisible` | src/server/session_manager.cpp:132-143 | no single step of the cleaner, between any steps of other threads, changes the active sessions |
| `Visibility.ViewIsDecided` | src/server/session_manager.cpp:54-149 | after every interleaved run the active sessions follow from those at the start, the waits, the saves and the removals alone |
| `Visibility.SubscribersCannotTell` | src/server/session_manager.cpp:86-149 | two interleaved runs with the same waits, saves and removals, on any stores and with any steps of the cleaner, end with the same active sessions |
| `Visibility.ActiveExactlyByHistory` | src/server/session_manager.cpp:54-110 | after every interleaved run an IMSI is active with a session if and only if that session was saved last and not removed since, or nothing was saved or removed of it and it was active so at the start, and its expiry is still to come |
| `Visibility.CleanerIsInvisible` | src/server/session_manager.cpp:131-149 | for every interleaved run there is one on any store that is the same in order, without the cleaner's steps and some steps that write "created", with the same waits, saves and removals, that ends with the same active sessions |
| `Admission.BlacklistedNeverGetsIn` | src/server/udp_server.cpp:88-95 | in every interleaved run and for every packet, no blacklisted IMSI gets into the store or the log, or is touched |
| `Admission.ClientIsTold` | src/server/udp_server.cpp:71-97 | a client is rejected if and only if the first 32 symbols of its IMSI are in the list; up to 32 symbols, if and only if the IMSI is; an empty IMSI gets no reply |
| `Admission.ListedIsRejected` | src/server/udp_server.cpp:88-97 | a client that sends a listed IMSI of 1 to 32 symbols is rejected |
| `Admission.WorkerFollowsVerdict` | src/server/udp_server.cpp:71-97 | a worker goes on to touch the IMSI of exactly those packets that are answered "created" |
| `Admission.LongListingIsVain` | src/server/udp_server.cpp:60-97 | listing a longer IMSI does not keep it from being admitted |
| `Admission.ServerCdrFileReadsBack` | src/server/cdr_writer.cpp:51-54 | the CDR file of every interleaved run splits into exactly the records written |
| `Servers.Blacklist.constructor` | src/server/blacklist.cpp:6-16 | the set that is_blocked looks in holds exactly the configured IMSIs, repeated or not |
| `Servers.UdpServer.HandleDatagram` | src/server/udp_server.cpp:65-97 | the reply is the verdict on the first 16 bytes; "created" comes with exactly one touch of the decoded IMSI, any other reply leaves the sessions alone |
| `Servers.HttpApi.CheckSubscriber` | src/server/http_api.cpp:46-51 | answers "active" if the IMSI is stored with an expiry after now, and "not active" otherwise |
| `Servers.HttpApi.StopServer` | src/server/http_api.cpp:54-79 | returns with the UDP flag cleared and nobody active, having offloaded only active sessions |
| `Shutdown.AtMostOneMorePacket` | src/server/udp_server.cpp:33-75 | once the flag is cleared, each worker comes back from recvfrom at most once more in any run |
| `Shutdown.ShutdownTerminates` | src/server/http_api.cpp:54-79 | once the flag is cleared and with a rate of at least 1, workers and stop handlers together take no more steps than a measure of the state, whatever cleaner and clock do |
| `Shutdown.BoundedExactly` | src/server/session_manager.cpp:93-123 | while a handler looks at an active session, the steps to the end of the shutdown are bounded if and only if the rate is not 0 |
| `Shutdown.NeverStuck` | src/server/session_manager.cpp:93-123 | as long as a thread has neither left nor waits for a packet, one such thread can take a step |
| `Shutdown.CanFinish` | src/server/session_manager.cpp:93-123 | so every stop handler can get to its end, within the measure |
| `Shutdown.StopSeesNoneActive` | src/server/session_manager.cpp:114-120 | a stop handler leaves only at a moment when nobody is active |
| `Shutdown.StopIsFinalExactly` | src/server/session_manager.cpp:112-123 | nobody ever becomes active after that moment if and only if no worker then has a touch in hand that could still be saved before its expiry |
| `Locks.EveryPathIsOrdered` | src/server/session_manager.cpp:39-147 | every locking path takes the mutexes in the order manager, then store or CDR, and never holds store and CDR together |
| `Locks.PathAcquires` | src/server/session_manager.cpp:39-147 | how often each path takes each of the three mutexes |
| `Locks.SessionOperationsExclude` | src/server/session_manager.cpp:58-106 | in every reachable state a thread inside a store call or CDR write of touch_session, is_active, offload_rate or graceful_stop holds the manager's mutex, and no two threads hold it |
| `Locks.HolderCanGoOn` | src/server/session_manager.cpp:58-147 | from a blocked thread, following the holders leads to one that can go on |
| `Locks.NoDeadlock` | src/server/session_manager.cpp:58-147 | in every reachable state of any number of threads, whenever one is blocked on a mutex, some holder of a mutex can take a step |

## Left out

- Sockets, HTTP parsing and the SQLite C API: foreign calls. A datagram is a byte sequence, an HTTP request is a call, and a statement has the meaning of its SQL on a table that works; a failed open, prepare or step is not modelled.
- Bytes left in the receive buffer and the 100 ms pause after an empty or failed receive: no property depends on them. An error of recvfrom and a datagram of no bytes are one case.
- Daylight saving and time zones: text order does break when local time is set back, so a fixed offset is a premise.
- Stamps with sub-second differences: `time` and `system_clock` are taken to read one clock of whole seconds.
- The exit through `std::exit(0)` in the HTTP thread: it skips the destructors in `main`, so the draining proved for `Close` and `StoppedWriterDrains` is not claimed for it.
- `CdrWriter` on an empty path, which throws, and on a file that does not open, where the writer thread ends at once: only an opened file is modelled.
- `SessionManagers.SessionManager.GracefulStop`: requires a rate of at least 1, because with rate 0 the loop offloads nothing and spins until the sessions time out; `Shutdown.BoundedExactly` covers every rate.
- `Servers.HttpApi.StopServer`: requires a rate of at least 1 for the same reason; it runs with no other thread, so the order of its two steps cannot be seen in its contract. `Shutdown` has the concurrent case and `Rounds.UdpStopsFirst` the order.
- `SessionManagers.SessionManager.CleanerRound`: one round at one moment with no other thread; `Interleaved` has the cleaner's separate steps.
- `Serialised.ExpiryNeverDecreases`: touches are atomic there; `Expiry` has the form for touches that read their clocks before the mutex.
- `Serialised.CleanerIsInvisible`: cleaner rounds are atomic there; `Visibility.CleanerIsInvisible` has the cleaner's separate steps.
- `Serialised.StoresAndSchedulesLookAlike`: the same restriction; `Visibility.SubscribersCannotTell` is without it.
- `TextTime.ServersLookAlike`: the same restriction; over interleavings the comparison is of times, which `Expiry.ComparesByText` reduces to that of text.
- `TextTime.SubscribersCannotTell`: as `TextTime.ServersLookAlike`.
- The cleaner's stop flag, its wait and the manager's destructor: the cleaner of the models may sweep at any moment and any number of times, which covers every schedule of waits.
- The virtual calls of `ISessionStore`: `SessionStore` is a datatype of the two classes and dispatches on its case.
- The iteration order of `unordered_map` and of SQL results: any order, chosen afresh on each call.
- Stored text that is not a stamp, such as rows put into the database by other programs: the store classes accept any text; the comparison with integer times is for stamps.
- Config loading, logging, the client's threads, random IMSIs and the JSON form of `Session`: plumbing or easy members.

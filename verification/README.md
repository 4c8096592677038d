# Honeynet: a verified model

Honeynet is a fleet of sensors, written in Go, that feed a collector, written in
Rust. A sensor pretends to be a badly kept Linux host: it records what attackers
do over SSH, Telnet and HTTP, appends each observation to a durable spool, and
drains the spool onto a message bus. The collector checks every message, tracks
each sensor's sequence numbers, stores events and sessions, and keeps a bounded
live index for the dashboard. This project models the parts of both programs
whose correctness is hard to see from one function, and proves what they promise.

**Delivery.** `BigEndian`, `PendingLog` and `Spools` are the spool's buckets,
`Transport` the bus client. `Delivery` is the protocol they take part in, a state
machine over single transactions and bus calls with crashes anywhere. `Sensors`
holds the drain loop, and proves that the code's calls, in any order and with any
failures, are a run of that machine, so that what is proved of the machine holds
of the code.
`SeqTracking`, `Ingest` and `SessionRows` are the collector's side, and `Acceptance`
says in the messages' own terms which of them it accepts and stores; `EndToEnd` joins
sensor and collector over a bus that duplicates and reorders.

**Live index.** `LiveIndexes` is the bounded cache with its buckets, ring and
counters; `IndexHistory` relates it to the plain history of calls.

**Emulated host.** `Trees`, `TreeEdits`, `Lookups`, `MidPathLinks`, `StoredBytes`,
`Vfs`, `VfsAnswers`, `VfsLaws` and `ReadBack` are the filesystem, as a table of nodes
so that detached structures and cycles can be expressed. `Tokenizer`, `Lexing` and
`ShellParser` are the parser, `Dispatch` the chain of commands that run other commands,
`EchoCommand` the command loaders use to smuggle binaries, `Shells` the evaluator,
`Pipelines` what pipelines and lists print, `Payload` the whole way from command lines
to file contents, `LineEditor` the interactive line, and `LineEdits` which lines come
out of it.

**Wire.** `Telnet` is the negotiation stripper, `Kex` the SSH handshake parser,
`WebSessions` the HTTP listener's session table.

Failures of the bus, the database and the connection, the size the database
reports, what is buffered, the clock and the addresses' geography are inputs: the
results hold for all of them.

Where a promise is false of the code, the model keeps the code and states when
it is kept:

- Sequence numbers wrap at 2^64. Loss is accounted for up to exactly 2^64
  reservations (`Delivery.NoSilentLoss`, `Delivery.WrapLosesRecord`), and gap
  accounting balances exactly when u64::MAX is not followed by another number
  (`SeqTracking.ConservedIffNoMax`).
- The comment on `SeqStatus::Replay` says such a number was already processed. For
  all verdicts of a run that holds exactly when every number new on arrival is
  larger than all since the last u64::MAX (`SeqTracking.ReplayMeansProcessedIff`);
  5 followed by 3 is a run where it does not (`SeqTracking.ReplayOfNewNumber`).
- A session row is independent of arrival order exactly under
  `SessionRows.OrderFreeEvents`; without a start, the start time is the first
  arrival's.
- A link in the middle of a path is resolved against the directory of the whole
  path. A path through one link, to plain names or to an absolute target, leads
  where the link is meant to lead exactly when the target is absolute
  (`MidPathLinks.MidPathLinkIff`). The one link that is ever made, `/bin/sh`, has a
  plain target, and no operation makes or retargets one (`Vfs.Session`); in such a
  tree no path through a link leads anywhere (`MidPathLinks.PlainLinksLoop`).
- What `WriteFile` stored under a clean path can be read back, in such a tree, exactly
  when the path is not the root and its parent path meets no link
  (`ReadBack.PlainLinksReadBackIff`). For every tree and every path it can exactly when
  the path, resolved on the tree before the write with the entry written taken for a
  file, comes to that entry as its last step (`ReadBack.ReadBackIff`).
- The warning on a sequence gap says that the sensor lost events. It may have lost
  none (`EndToEnd.GapWithoutLoss`). The missing numbers are exactly those of which no
  record was received: it was evicted, or never stored, or is still spooled or on
  its way (`EndToEnd.MissingIff`); `missing_events` counts those and the ones that came
  late (`EndToEnd.MissingEventsMean`).
- Quoting keeps an operator from acting and a backslash does not, when the word is that
  operator alone (`Lexing.EscapedOperatorActs`).
- The comment on `readLine` counts a read of more than one printable byte as pasted;
  the code counts one of more than two (`LineEdits.ReadsReport`).
- A Telnet payload survives exactly when it holds no NUL
  (`Telnet.PayloadSurvivesIff`), the name-list of one empty name does not survive
  the wire (`Kex.ListRoundTripIff`), and a sensor id with a dot in it is not the
  one its subject names (`Ingest.OwnSubjectIff`).

## Model

| member | source | states |
|---|---|---|
| `BigEndian.GetPut` | node/internal/spool/spool.go:91-93 | Decoding the big-endian bytes of any number that fits their width gives the number back. |
| `BigEndian.PutGet` | node/internal/spool/spool.go:85-88 | Encoding what any byte string decodes to, in its own length, gives the string back. |
| `BigEndian.BeforeIsLess` | node/internal/spool/spool.go:144-157 | On byte strings of one length, lexicographic order is exactly numeric order of the big-endian values. |
| `BigEndian.KeyOrder` | node/internal/spool/spool.go:129-131 | For all 64-bit numbers, the cursor's byte order on 8-byte keys is numeric order, and keys are distinct exactly when the numbers are. |
| `PendingLog.OldestAscending` | node/internal/spool/spool.go:144-157 | The numbers a peek takes are strictly increasing. |
| `PendingLog.OldestAreSmallest` | node/internal/spool/spool.go:144-157 | Everything a peek takes is smaller than everything pending that it leaves. |
| `PendingLog.EvictCutsPrefix` | node/internal/spool/spool.go:115-127 | `k` evictions remove exactly `k` records, every one older than every survivor, and survivors keep their bytes. |
| `PendingLog.EvictTwice` | node/internal/spool/spool.go:115-127 | Evicting `k` and then `m` records is evicting `k + m`: evictions of successive appends compose. |
| `Spools.KeyNumber` | node/internal/spool/spool.go:81-96 | Every 8-byte key is the key of exactly one 64-bit number, so a stored counter or key always reads back. |
| `Spools.FirstIsLeast` | node/internal/spool/spool.go:117-119 | The first key in byte order belongs to the smallest pending number. |
| `Spools.MakeRoom` | node/internal/spool/spool.go:113-127 | For any answers of the size call, the eviction loop ends, has evicted the `k` oldest records and nothing else, and stops only when the record fits, the bucket is empty or a delete errs. |
| `Spools.Collect` | node/internal/spool/spool.go:144-157 | The cursor walk returns the min(n, depth) oldest records in order, each key paired with the blob stored under it. |
| `Spools.BatchCovers` | node/internal/spool/spool.go:160-170 | Deleting the keys of a batch of the `m` oldest is evicting the `m` oldest, and the batch holds the blob of each. |
| `Spools.Spool.constructor` | node/internal/spool/spool.go:53-71 | A fresh spool is empty, with counter and `dropped` at zero. |
| `Spools.Spool.Reopen` | node/internal/spool/spool.go:53-71 | Reopening keeps both buckets and zeroes `dropped`. |
| `Spools.Spool.NextSeq` | node/internal/spool/spool.go:81-96 | Returns and persists the counter's 64-bit successor if the transaction commits, and changes nothing otherwise. |
| `Spools.Spool.Store` | node/internal/spool/spool.go:112-132 | It evicts up to the first test at which the record fits or none is left, or the first deletion that errs, and succeeds exactly if it commits and no deletion erred; then the pending map is the old one less its `k` oldest, plus the new record; `dropped` grows by `k` either way, and a rollback leaves the records alone. |
| `Spools.Spool.Append` | node/internal/spool/spool.go:100-133 | A successful append is filed under the new counter value with the blob marshalled for that value; a failed one changes no record, and only a failed reservation, marshalling, deletion or commit makes it fail. |
| `Spools.Spool.Peek` | node/internal/spool/spool.go:144-157 | Returns the oldest pending records in order, or an error exactly when the read transaction errs, and changes nothing. |
| `Spools.Spool.Ack` | node/internal/spool/spool.go:160-170 | Removes exactly the records with the given keys, keys no longer present being ignored; a failed commit removes nothing. |
| `Delivery.StepKeeps` | node/internal/spool/spool.go:81-170 | Every step of the protocol, up to 2^64 reservations, keeps the invariant: numbers are unique, every copy is a copy of a stored record, every stored record is pending, on the bus or evicted. |
| `Delivery.ReachKeeps` | node/internal/spool/spool.go:81-170 | The invariant holds in every reachable state of interleaved appends, drains, failures and crashes. |
| `Delivery.NoSilentLoss` | node/internal/transport/nats.go:133-167 | In every reachable state with at most 2^64 reservations, each record ever stored is pending, on the bus or evicted, and the records lost number at most the sum of `dropped` over process lifetimes. |
| `Delivery.AckExact` | node/internal/spool/spool.go:160-170 | An acknowledgement deletes only records of the flushed batch, each with the very contents that are on the bus, whatever was stored or evicted in between. |
| `Delivery.WrapLosesRecord` | node/internal/spool/spool.go:89-93 | For every number of reservations above 2^64 there is a run that loses a stored record without an eviction: the bound of `NoSilentLoss` is exact. |
| `Delivery.UncoveredFlushLoses` | node/internal/transport/nats.go:153-161 | There is a run in which the link breaks with the batch still buffered; a flush that reported success there, and the acknowledgement after it, would lose a record: a successful flush must cover the batch. |
| `Sensors.Sensor.Reserve` | node/internal/spool/spool.go:81-96 | When it commits, the counter becomes its 64-bit successor and that number joins those being appended; otherwise nothing changes. It is one step of the protocol or none. |
| `Sensors.Sensor.Store` | node/internal/spool/spool.go:112-132 | When it succeeds, the `k` oldest records give way to the marshalled envelope under its number, `dropped` grows by `k`, and the record enters the history of what was stored; when it fails, only `dropped` grows. Either is one step of the protocol, and says why it failed or stopped evicting. |
| `Sensors.Sensor.Peek` | node/internal/transport/nats.go:139-145 | The batch the loop holds is the oldest pending records, keys and blobs, and, record for record, the batch the protocol's peek takes; an error changes nothing. |
| `Sensors.Sensor.PublishOne` | node/internal/transport/nats.go:147-151 | Publishing one record appends it to the write buffer, or fails and ends the round, and changes nothing else; either is a step of the protocol. |
| `Sensors.Sensor.Arrive` | node/internal/transport/nats.go:153-158 | Any first part of the write buffer may reach the bus at any time; that is a sequence of protocol steps and changes nothing else. |
| `Sensors.Sensor.Break` | node/internal/transport/nats.go:153-158 | The write buffer may be lost at any time; the batch being sent is then no longer intact, and a flush of it cannot succeed. |
| `Sensors.Sensor.Flush` | node/internal/transport/nats.go:156-158 | A flush delivers some first part of the buffer; it succeeds only if that is all of it and nothing of the batch was lost before. Either outcome is a sequence of protocol steps. |
| `Sensors.Sensor.Ack` | node/internal/transport/nats.go:159-161 | Acknowledging removes exactly the batch's keys if it commits, and only records whose bytes are on the bus; it is one step of the protocol. |
| `Sensors.Sensor.PublishAll` | node/internal/transport/nats.go:147-151 | On success exactly the batch follows what was in the write buffer; on failure a proper prefix of it does; nothing else changes; a run of the protocol. |
| `Sensors.Sensor.Round` | node/internal/transport/nats.go:138-164 | One round removes only a prefix of the oldest records, all on the bus by then; nothing else enters the bus or its buffer; a short batch means the spool is empty; a run of the protocol. |
| `Sensors.Sensor.Drain` | node/internal/transport/nats.go:133-167 | The whole loop, made of the sensor's calls, ends and is a run of the protocol; what it removed is the `k` oldest records, each on the bus; with a positive batch size, no error means the spool is empty. |
| `Sensors.Sensor.Crash` | node/internal/spool/spool.go:53-71 | Stopping and reopening keeps both buckets and the bus, and clears `dropped`, the appends under way, the drain loop and the write buffer; it is one step of the protocol. |
| `Sensors.Sensor.Perform` | node/internal/transport/nats.go:109-167 | Each call, made where its caller can make it, changes what the sensor holds exactly as stated for it, and extends the run of the protocol. |
| `Sensors.Execute` | node/internal/transport/nats.go:109-167 | Any sequence of calls, arrivals and breaks, succeeding or failing, is a run of the protocol, and leads from one snapshot of the sensor to the next by what each call does: the code refines the state machine. |
| `Sensors.NothingLostSilently` | node/internal/spool/spool.go:100-133 | Of the code itself: every record its storing transactions committed is in the spool under its number, or its bytes are on the bus, or it was evicted, and losses are at most what `dropped` counted over all process lifetimes. |
| `SeqTracking.SeqTracker.Observe` | collector/src/ingest.rs:74-95 | One observation returns the verdict of the wrapping 64-bit arithmetic and moves only that node's last accepted number. |
| `SeqTracking.PlainVerdict` | collector/src/ingest.rs:74-95 | Short of u64::MAX, the verdict, with the number expected and how many are missing, in unbounded arithmetic. |
| `SeqTracking.Conservation` | collector/src/ingest.rs:74-95 | For every observation sequence, last − first plus 2^64 per wrap is the in-order count plus the gap count plus the missing total. |
| `SeqTracking.WrapsIffMax` | collector/src/ingest.rs:74-95 | A wrap occurs exactly when u64::MAX is followed by another observation. |
| `SeqTracking.ConservedIffNoMax` | collector/src/ingest.rs:74-95 | Gap accounting balances if and only if u64::MAX is never followed by another observation. |
| `SeqTracking.MissingAccounted` | collector/src/ingest.rs:74-95 | The numbers between first and last that never arrived, plus those that arrived late, are exactly the announced missing total. |
| `SeqTracking.MissingBound` | collector/src/ingest.rs:74-95 | The numbers never observed are at most the missing total, with equality exactly when no number in range arrives for the first time after a larger one. |
| `SeqTracking.LastIsLargest` | collector/src/ingest.rs:74-95 | The last number accepted is the largest observed since the last u64::MAX, or that very number. |
| `SeqTracking.ReplayIff` | collector/src/ingest.rs:74-95 | An observation gets the verdict Replay if and only if some number since the last u64::MAX was at least as large. |
| `SeqTracking.ReplayMeansProcessedIff` | collector/src/ingest.rs:69-70 | Every Replay verdict of a run is about a number already processed if and only if every number new on arrival is larger than all since the last u64::MAX. |
| `SeqTracking.ReplayOfNewNumber` | collector/src/ingest.rs:69-70 | After 5, the number 3 gets the verdict Replay although it was never processed. |
| `SeqTracking.NodesIndependent` | collector/src/ingest.rs:74-95 | In a log mixing many nodes, each node's tracker entry is what its own observations alone would leave. |
| `SeqTracking.LogTotals` | collector/src/ingest.rs:74-95 | Over a log mixing any nodes, the gap verdicts and the missing total are the sums over nodes of what each node's own observations give. |
| `Ingest.NodeFromSubjectIff` | collector/src/ingest.rs:36-44 | A subject names a node if and only if it is the prefix, a dot, that non-empty dot-free node, and then nothing or a dot and anything. |
| `Ingest.OwnSubjectIff` | collector/src/ingest.rs:36-44 | A sensor's own subject names that sensor if and only if its id is non-empty and dot-free. |
| `Ingest.Ingestor.PutEvent` | collector/src/store.rs:228-310 | Statement by statement, whichever one fails: the session row first, then the event row unless its key exists, then the child row that can still fail the call. |
| `Ingest.Ingestor.Gate` | collector/src/ingest.rs:156-191 | A message passes with the event it stands for, or bumps exactly one rejection counter of the right kind. |
| `Ingest.Ingestor.Handle` | collector/src/ingest.rs:150-233 | One delivery moves tracker, counters, both tables and the observed events together as the specification says, and returns the event exactly when the store accepted it. |
| `Ingest.Accept` | collector/src/ingest.rs:156-191 | An accepted event carries the subject's node, a positive sequence number, and otherwise what the envelope said. |
| `Acceptance.AcceptIff` | collector/src/ingest.rs:156-191 | A message is accepted if and only if it was decoded, its subject names the node its envelope claims, the number is positive, the schema version at most 1, there is a payload, and the session id is empty or 26 characters of base 32. |
| `Acceptance.AcceptedSays` | collector/src/normalize.rs:60-101 | What an accepted message stands for, field by field; dated by the node if it said when, and otherwise by its receipt. |
| `Acceptance.RefusalCounted` | collector/src/ingest.rs:156-191 | Which one counter each kind of refused message moves; nothing else changes. |
| `Acceptance.AcceptedStored` | collector/src/store.rs:228-310 | An accepted message leaves its session's row, leaves its own row, and counts as stored, each exactly when the statements up to there succeed. |
| `Acceptance.ReplaysFollowLog` | collector/src/ingest.rs:209-212 | The counter of replays is that of the log of accepted numbers. |
| `Acceptance.ReplaysMean` | collector/src/ingest.rs:74-95 | It is how many accepted numbers were not larger than all of their node's since its last u64::MAX. |
| `Ingest.CountersBalance` | collector/src/ingest.rs:150-233 | After any deliveries: received = stored + rejected_identity + rejected_decode + rejected_other = number of messages, and stored is the number of events observed. |
| `Ingest.FirstArrivalWins` | collector/src/store.rs:239-256 | After any deliveries, the events table is the map from key to the first message that inserted that key. |
| `Ingest.KeysAreInserted` | collector/src/store.rs:239-256 | The table has a key exactly when some message inserted it. |
| `Ingest.CastInjective` | collector/src/store.rs:249 | `seq as i64` merges no two sequence numbers. |
| `Ingest.Attributed` | collector/src/normalize.rs:66-77 | Every row was inserted by a message whose subject names the row's node, and is filed under that node and the number it carries. |
| `Ingest.ReplayHarmless` | collector/src/store.rs:239-256 | Duplicating, losing or reordering deliveries, handled at whatever times and under whatever database faults, changes no key as long as each message written in one run is written in the other; where the messages for a key carry one envelope it changes nothing in the row but the receive time, and the node time if the envelope has none. |
| `Ingest.SessionsPresent` | collector/src/store.rs:235-237 | After any deliveries and database faults, every event row with a session id has a session row. |
| `Ingest.SessionsAreRows` | collector/src/store.rs:235-237 | After any deliveries, each session's row is exactly what its own upserts, in order of arrival, make of it. |
| `Ingest.CountersFollowLog` | collector/src/ingest.rs:193-213 | After any deliveries, the tracker's map and the gap counters are those of the log of accepted numbers. |
| `Ingest.GapsAreSums` | collector/src/ingest.rs:193-213 | The gap counter and the missing counter are the sums over all nodes of what each node's accepted numbers account for. |
| `SessionRows.RowShape` | collector/src/store.rs:321-401 | After any arrivals the row holds the first event's node, the last start's columns, the last end's columns, and the last start's time or else the first arrival's. |
| `SessionRows.RowColumns` | collector/src/store.rs:312-380 | Column by column, with the last start and the last end told by position; without a start the row begins with its first event. |
| `SessionRows.OrderFreeIff` | collector/src/store.rs:321-401 | All arrival orders give one row if and only if the events name one node, their starts agree, their ends agree, and there is a start or a single time. |
| `SessionRows.OneStartOneEnd` | collector/src/store.rs:321-401 | With one node, one start, one end and anything else, every permutation gives the row made of that start and that end. |
| `EndToEnd.AlwaysBacked` | collector/src/ingest.rs:150-233 | However deliveries repeat, reorder or mix with other nodes' traffic, every row filed under a node repeats a record that sensor put on the bus. |
| `EndToEnd.WholePath` | collector/src/ingest.rs:36-44 | Spool to table: every row under a node matches exactly one record its spool stored, and every stored record is spooled, on the bus or counted as dropped. |
| `EndToEnd.RowIff` | collector/src/store.rs:239-256 | The collector has a row for a number of a node if and only if some delivery of a well-formed record carrying it got past the statements that write it. |
| `EndToEnd.DeliveredHasRow` | collector/src/store.rs:239-256 | Every well-formed record of the sensor whose delivery was written has a row, and the row says what the record says. |
| `EndToEnd.CollectorRuns` | collector/src/ingest.rs:150-233 | Joined to the sensor, the collector is the plain run of the messages delivered to it. |
| `EndToEnd.ObservedIff` | collector/src/ingest.rs:74-95 | The tracker observed a number of a node exactly when a delivery of that sensor's record carrying it passed the gates. |
| `EndToEnd.MissingIff` | collector/src/ingest.rs:74-95 | A number between the first observed and the last accepted is missing if and only if no record stored under it was received; it was reserved, and either nothing was stored under it, or its one record is still spooled, or was evicted, or is on the bus without a delivery that passed. |
| `EndToEnd.MissingEventsMean` | collector/src/ingest.rs:193-208 | `missing_events` is the sum over nodes of the missing totals, and a sensor's total is its missing numbers, in the sense of `MissingIff`, plus those that came late, as long as u64::MAX is not followed by another number. |
| `EndToEnd.GapWithoutLoss` | collector/src/ingest.rs:199-205 | A run in which the tracker reports a gap although nothing was lost: the second of three records is stored after the third was drained, and is still spooled. |
| `LiveIndexes.LiveIndex.Admit` | collector/src/index.rs:182-217 | Creates a view for an unknown session, drops the oldest sessions beyond 5000 with their buckets, and leaves everything else. |
| `LiveIndexes.LiveIndex.Record` | collector/src/index.rs:241-312 | Folds the event into its session's view and adds it to the bucket while that holds fewer than 2000. |
| `LiveIndexes.LiveIndex.Remember` | collector/src/index.rs:314-317 | The ring holds the last 500 of what it held and the new event. |
| `LiveIndexes.LiveIndex.Tally` | collector/src/index.rs:228-307 | Moves the global counters and count maps as the event's kind demands and nothing else. |
| `LiveIndexes.LiveIndex.Ingest` | collector/src/index.rs:148-318 | One call moves the whole index, fleet health included, to the next state of the specification. |
| `LiveIndexes.LiveIndex.ApplyProfile` | collector/src/index.rs:402-411 | Sets the three profile fields of the views that are held and assigned, and nothing else. |
| `IndexHistory.CacheAgrees` | collector/src/index.rs:148-318 | After any calls: the order list is the last 5000 of the creation log without repeats, its members are the keys of both maps, and each session's view and bucket are the fold of its events since its latest creation. |
| `IndexHistory.RecentAgrees` | collector/src/index.rs:314-317 | After any calls the ring is the last 500 session events and the event total counts every event. |
| `IndexHistory.TotalsAgree` | collector/src/index.rs:228-307 | After any calls every counter and count map equals the count over all session events, evicted sessions included. |
| `IndexHistory.ViewOfCounts` | collector/src/index.rs:241-307 | A view's counters count its session's events beyond the bucket cap too, and its URL and attack lists hold each value that occurred once. |
| `IndexHistory.ViewOfSays` | collector/src/index.rs:242-300 | The credential shown is that of the last successful login; protocol, peer, client and place those of the last start; time, reason and length of the end those of the last end; node and start time the creating event's; the profile the last one assigned; each empty where there was none. |
| `IndexHistory.FoldedGrows` | collector/src/index.rs:283-300 | The lists of a view only grow at their end. |
| `IndexHistory.ProtocolNamesDiffer` | collector/src/index.rs:242-260 | Different protocols have different names. |
| `IndexHistory.HealthAgrees` | collector/src/index.rs:152-180 | After any calls a sensor is known exactly once it sent a heartbeat outside any session; its health is the last one, its count that of its session events since the first, and it was seen when the last of these arrived. |
| `IndexHistory.IndexRefinesHistory` | collector/src/index.rs:148-330 | After any calls: the views of the last 5000 sessions created and no others, each saying what its events say; the first 2000 events of each; the last 500 session events; all totals; and the fleet's health. |
| `Text.SplitJoin` | node/internal/vfs/vfs.go:225-231 | Splitting a join gives the pieces back when none holds the separator. |
| `Text.JoinSplit` | node/internal/vfs/vfs.go:225-231 | Joining a split gives the text back, always. |
| `Paths.CleanRender` | node/internal/vfs/vfs.go:211-223 | Paths made of plain components are fixed points of path cleaning. |
| `Paths.ComponentsRender` | node/internal/vfs/vfs.go:225-231 | Taking such a path apart gives its components back. |
| `Paths.DirBase` | node/internal/vfs/vfs.go:320-330 | `Dir` and `Base` undo adding a component. |
| `Paths.CleanIsRender` | node/internal/vfs/vfs.go:211-223 | Whatever text is cleaned against a clean working directory, the result is an absolute path of plain components: it never escapes the root. |
| `Paths.NameThenUp` | node/internal/vfs/vfs.go:211-223 | Anywhere in a path, a name followed by `..` cancels. |
| `Paths.HereVanishes` | node/internal/vfs/vfs.go:211-223 | Anywhere in a path, `.` and nothing between two slashes vanish. |
| `Paths.UpFromRoot` | node/internal/vfs/vfs.go:211-223 | There is nothing above the root: `..` there vanishes. |
| `Paths.RelativePath` | node/internal/vfs/vfs.go:214-217 | A path that is not absolute is taken from the working directory; an empty one is the working directory. |
| `Paths.CleanPieces` | node/internal/vfs/vfs.go:211-223 | An absolute path is cleaned the same way from every working directory, piece by piece. |
| `Paths.UpAndDown` | node/internal/vfs/vfs.go:211-223 | From a directory, `../` written n times and then plain names lead n levels up, at most to the root, and down those names. |
| `Paths.BaseLast` | node/internal/shell/commands.go:39-46 | The last component is what follows the last slash, whatever is before it. |
| `Paths.BaseTrailing` | node/internal/vfs/vfs.go:320-330 | Slashes at the end of a path do not count for its last component. |
| `Lookups.LookupDepth` | node/internal/vfs/vfs.go:238-267 | The loop with its recursion through symbolic links ends on every tree, link cycles included, and computes the specified resolution. |
| `Lookups.LookupReaches` | node/internal/vfs/vfs.go:238-267 | Whatever a lookup finds is reachable from the root. |
| `Lookups.LinkFreeLookup` | node/internal/vfs/vfs.go:238-267 | Where no entry on the way is a link, lookup is a plain component walk. |
| `Lookups.PlainWalkIsWalk` | node/internal/vfs/vfs.go:238-267 | The plain walk finds a node exactly where the tree has that path, and otherwise fails with not-a-directory or not-found. |
| `MidPathLinks.MidPathLink` | node/internal/vfs/vfs.go:245-252 | A link met in the middle of a path, whatever its target, is resolved against the directory of the whole path, and the lookup goes on from there. |
| `MidPathLinks.RelativeLinkLoops` | node/internal/vfs/vfs.go:245-252 | A link whose target is plain names, used as a directory by any path, always ends in the link-loop error, whatever is behind it and whatever depth remains. |
| `MidPathLinks.AbsoluteLinkWalks` | node/internal/vfs/vfs.go:245-252 | A link with an absolute target stands for its target: the lookup is a plain walk along the target and then the rest, where those meet no link. |
| `MidPathLinks.MidPathLinkIff` | node/internal/vfs/vfs.go:245-252 | Where a path goes through one link, to plain names or to an absolute target, it leads where the link is meant to lead if and only if the target is absolute. |
| `MidPathLinks.PlainLinksLoop` | node/internal/vfs/vfs.go:245-252 | Where every link has plain names for its target, no path through any link leads anywhere: each ends in the link-loop error. |
| `MidPathLinks.PlainLinksLookup` | node/internal/vfs/vfs.go:238-267 | There, a lookup of a clean path that leaves its last name unfollowed is the plain walk, or the link-loop error exactly when a link comes before the last name. |
| `MidPathLinks.StockLinkLoops` | node/internal/vfs/vfs.go:245-252 | No path through the stock link `/bin/sh` leads anywhere. |
| `MidPathLinks.ChainIff` | node/internal/vfs/vfs.go:238-267 | A chain of links in one directory is followed to what its last name is if it has at most 16 links, and is the link-loop error otherwise. |
| `MidPathLinks.CircleLoops` | node/internal/vfs/vfs.go:238-241 | Links that go round in a circle are the link-loop error. |
| `TreeEdits.LinkIsTree` | node/internal/vfs/vfs.go:336-340 | Filing a new node under a directory keeps the tree and changes exactly that path and what was below it. |
| `TreeEdits.UnlinkIsTree` | node/internal/vfs/vfs.go:388-406 | Unlinking keeps the tree and removes exactly that path and what was below it. |
| `TreeEdits.RetouchIsTree` | node/internal/vfs/vfs.go:344-360 | Changing a node in place keeps the tree and changes exactly one path's entry. |
| `TreeEdits.MoveAt` | node/internal/vfs/vfs.go:409-427 | After a move, the destination leads where the source led, the source leads nowhere, and all other paths are unchanged. |
| `TreeEdits.MoveIsTree` | node/internal/vfs/vfs.go:409-427 | Moving keeps the tree; moving a directory beneath itself detaches it and is otherwise a removal. |
| `StoredBytes.ReachableAtMostAll` | node/internal/vfs/vfs.go:319-341 | The bytes reachable from the root are at most the bytes of all nodes. |
| `Vfs.AfterWriteSteady` | node/internal/vfs/vfs.go:319-341 | A write leaves a closed table in which ids never repeat, so writes compose. |
| `Vfs.WritePlants` | node/internal/vfs/vfs.go:319-341 | The new table after a write is a tree that differs in exactly the path written. |
| `Vfs.FS.Built` | node/internal/vfs/vfs.go:97-201 | Any tree, the stock one with its contents and its link among them, makes a filesystem with nothing written yet, whose built-in bytes are the tree's. |
| `Vfs.FS.ReadFile` | node/internal/vfs/vfs.go:285-297 | Reads what the resolved path holds, computed files included, or the right error. |
| `Vfs.FS.WriteFile` | node/internal/vfs/vfs.go:319-341 | Succeeds exactly when the quota, the parent and the name allow; the new table is then the old one with the file filed, exactly that path changes and `written` grows by the size; otherwise nothing changes. |
| `Vfs.FS.Append` | node/internal/vfs/vfs.go:344-360 | Extends the file the path resolves to, links followed, or creates it; exactly that path changes; refusals change nothing. |
| `Vfs.FS.Mkdir` | node/internal/vfs/vfs.go:363-379 | Adds an empty directory at that path only, or refuses with the right error and changes nothing. |
| `Vfs.FS.MkdirAll` | node/internal/vfs/vfs.go:525-535 | Adds exactly the directories missing on the way, and fails exactly when something on the way is no directory, changing nothing. |
| `Vfs.FS.Remove` | node/internal/vfs/vfs.go:388-406 | Removes that path and what is below it, or refuses with the right error and changes nothing. |
| `Vfs.FS.Rename` | node/internal/vfs/vfs.go:409-427 | Moves one subtree and keeps the tree invariant, also when the destination lies beneath the source; when the destination's parent is no directory the source is gone all the same. |
| `Vfs.FS.Chmod` | node/internal/vfs/vfs.go:430-438 | Changes the mode and the attacker mark of the resolved entry only. |
| `Vfs.FS.Touch` | node/internal/vfs/vfs.go:441-448 | Creates an empty file where nothing resolves, and otherwise changes nothing modelled. |
| `Vfs.Session` | node/internal/vfs/vfs.go:319-448 | Any sequence of operations, succeeding or failing, leaves a tree whose reachable bytes are at most the built-in bytes plus `written`, itself at most 32 MiB, and in which no link is new or has a new target: links to plain names are all there ever are, if so they were built. |
| `VfsLaws.WriteReads` | node/internal/vfs/vfs.go:319-341 | After a successful write through a link-free parent, reading the path gives exactly those bytes. |
| `VfsLaws.ReadEntry` | node/internal/vfs/vfs.go:285-297 | Reading a link-free path gives the bytes of the entry it leads to, or tells a directory, a missing name and a name below something that is no directory apart. |
| `VfsLaws.LinkFreeReadBackIff` | node/internal/vfs/vfs.go:319-341 | Over all clean absolute paths whose parent meets no link, a successful write reads back if and only if the path is not the root. |
| `ReadBack.SeekIsLookup` | node/internal/vfs/vfs.go:238-267 | Lookups after a write are decided by the tree before it: what each path finds with a file in the slot written. |
| `ReadBack.ReadBackIff` | node/internal/vfs/vfs.go:285-341 | For every tree and every path a write is admitted to, whatever is written reads back if and only if the path, resolved on the tree before the write with the slot taken for a file, comes to that slot as its last step. |
| `ReadBack.WrittenIsAfterWrite` | node/internal/vfs/vfs.go:319-341 | The tree these results read from is the one an accepted WriteFile leaves. |
| `ReadBack.RootMisses` | node/internal/vfs/vfs.go:225-231 | What is written to the root never reads back under that path. |
| `ReadBack.LinkFreeHits` | node/internal/vfs/vfs.go:319-341 | What is written to any other clean path whose parent meets no link reads back. |
| `ReadBack.ThroughLinkIff` | node/internal/vfs/vfs.go:238-267 | Where the parent path ends in a link, to plain names or to an absolute target, and meets none before, a write reads back if and only if the target is absolute and the write replaces neither that link nor one its target runs through. |
| `ReadBack.LinkFreeTargetStays` | node/internal/vfs/vfs.go:238-267 | An absolute target without links of its own is never disturbed by the write. |
| `ReadBack.PlainLinksReadBackIff` | node/internal/vfs/vfs.go:285-341 | Where every link has plain names for its target, whatever is written to a clean absolute path reads back if and only if the path is not the root and its parent path meets no link. |
| `ReadBack.StockLinkNotReadBack` | node/internal/vfs/vfs.go:245-252 | With `/bin/dash` made a directory, `/bin/sh/f` can be written for every name `f`, and reading it ends in the link-loop error. |
| `ReadBack.StockTreePlain` | node/internal/vfs/vfs.go:189-189 | The tree with the stock link is one whose links have plain names for targets. |
| `VfsLaws.RootWriteNotRead` | node/internal/vfs/vfs.go:319-341 | Writing to `/` succeeds by filing an entry named `/`, and reading `/` still reports a directory. |
| `VfsLaws.AppendReads` | node/internal/vfs/vfs.go:344-360 | Appending to a stored file makes it read as the old bytes followed by the new ones. |
| `VfsLaws.OthersUnchanged` | node/internal/vfs/vfs.go:319-341 | Every other link-free path reads as before a write, bytes or error, unless it leads on from the file written, where it is told there is no directory. |
| `VfsLaws.OthersUnchangedByAppend` | node/internal/vfs/vfs.go:344-360 | Every other link-free path reads exactly as before an append that extends a file, bytes or error. |
| `VfsAnswers.WriteAnswer` | node/internal/vfs/vfs.go:319-336 | A write is refused past 32 MiB, where the parent leads nowhere or is no directory, and where a directory has the name; with which error, and not otherwise. |
| `VfsAnswers.AppendAnswer` | node/internal/vfs/vfs.go:344-356 | An append extends what is there unless it is a directory or the quota is passed, and is a write where nothing is. |
| `VfsAnswers.MkdirAnswer` | node/internal/vfs/vfs.go:363-374 | A directory is made exactly where the parent is one and nothing has the name; else with which error. |
| `VfsAnswers.RemoveAnswer` | node/internal/vfs/vfs.go:388-404 | What is at a path is removed unless it is a directory with something in it and removal is not recursive, or the root; else with which error. |
| `VfsAnswers.RenameAnswer` | node/internal/vfs/vfs.go:409-423 | A move needs something to move and a directory to move it to; else with which error, or the failure of the nil map. |
| `VfsAnswers.StatAfter` | node/internal/vfs/vfs.go:336-341 | A file just written and a directory just made have the name, the mode and the contents asked for, the attacker's mark, and nothing below them. |
| `VfsAnswers.MadeOnTheWay` | node/internal/vfs/vfs.go:525-535 | Directories made on the way have the mode asked for, are empty but for the next one, and bear no mark. |
| `VfsAnswers.MkdirThen` | node/internal/vfs/vfs.go:363-404 | A directory just made exists for a second attempt, and can be removed without recursion. |
| `VfsAnswers.WriteThenRemove` | node/internal/vfs/vfs.go:388-404 | Once a file is in it, a directory is removed recursively only. |
| `Tokenizer.ScanSingle` | node/internal/shell/parser.go:142-149 | The loop over a single-quoted part takes exactly the text before the next quote or the end. |
| `Tokenizer.ScanDouble` | node/internal/shell/parser.go:151-161 | The loop over a double-quoted part yields its unescaped contents and where it stops. |
| `Tokenizer.Tokenize` | node/internal/shell/parser.go:117-199 | The scanner computes the specified tokens of every line. |
| `Tokenizer.ScanQuote` | node/internal/shell/parser.go:142-149 | Any text, written in single quotes with `'` as `'\''`, scans as that one word, quoted. |
| `Tokenizer.DoubleOfEscaped` | node/internal/shell/parser.go:151-161 | Any text with double quotes and backslashes escaped is read back from between double quotes exactly. |
| `Tokenizer.ScanDoubleQuoted` | node/internal/shell/parser.go:151-161 | Any text so escaped in double quotes scans as that one word, quoted. |
| `Tokenizer.ScanPrinted` | node/internal/shell/parser.go:117-199 | Printed tokens scan back to themselves, operators and quoted words apart. |
| `Lexing.LineSays` | node/internal/shell/parser.go:117-199 | A line of words made of bare, escaped, single- and double-quoted pieces, of operators and of blanks gives exactly those words, each with its pieces together and quoted if any piece is, and those operators, in order. |
| `Lexing.EscapedOperatorActs` | node/internal/shell/parser.go:137-140 | A word that is nothing but an escaped operator gives the same token as the operator. |
| `ShellParser.Parse` | node/internal/shell/parser.go:37-105 | The parsing loop with its two closures computes the specified pipelines of every line. |
| `ShellParser.ParsedNormal` | node/internal/shell/parser.go:37-105 | Every line parses to non-empty pipelines of non-empty stages, of which only the last may lack an operator. |
| `ShellParser.FeedAll` | node/internal/shell/parser.go:63-104 | Feeding the tokens of any normal form adds exactly its pipelines to those already finished. |
| `ShellParser.ParsePrint` | node/internal/shell/parser.go:37-199 | Printing any normal form in single quotes and parsing it gives it back: quoted text never acts as an operator. |
| `ShellParser.ParsePrintParse` | node/internal/shell/parser.go:37-199 | Printing what any line parsed to and parsing again changes nothing. |
| `ShellParser.PipeSays` | node/internal/shell/parser.go:78-81 | Two commands with a pipe between them are two stages of one pipeline. |
| `ShellParser.ListOperatorsSay` | node/internal/shell/parser.go:82-94 | With a list operator between them they are two pipelines, the first with that operator behind it; `&` is `;` with the first in the background. |
| `ShellParser.RedirectionsSay` | node/internal/shell/parser.go:63-76 | `>` names the file written, `>>` the one added to, `<` the one read, and the target is the next token. |
| `Dispatch.FieldsShape` | node/internal/shell/commands.go:1833 | Fields are non-empty and free of white space. |
| `Dispatch.FieldsJoin` | node/internal/shell/commands.go:1833 | Splitting undoes joining with blanks, whatever white space follows. |
| `Dispatch.FieldsSpaced` | node/internal/shell/commands.go:1833 | Whatever ASCII white space is before, between and after words, the fields are the words. |
| `Dispatch.CollectOperands` | node/internal/shell/commands.go:161-169 | The loop keeps exactly the arguments that are not flags, in order. |
| `Dispatch.AgainShrinks` | node/internal/shell/commands.go:1364-1374 | Every call back into dispatch has strictly fewer arguments plus input fields than the call that made it. |
| `Dispatch.XargsPassesOn` | node/internal/shell/commands.go:1828-1835 | Words printed to `xargs` become arguments again, each once and in order. |
| `Dispatch.Settled` | node/internal/shell/commands.go:21-59 | Every call ends, for every table of handlers, and never in a further call. |
| `Dispatch.HopsBound` | node/internal/shell/commands.go:21-59 | Dispatch is entered again fewer times than the call has words. |
| `Dispatch.BoundReached` | node/internal/shell/commands.go:1364-1374 | For every length root reaches that bound, with a chain of `sudo`. |
| `Dispatch.NothingInvented` | node/internal/shell/commands.go:21-59 | Through any chain, what the final command is given is the typed words followed by the piped ones with some left out: none made up, repeated or reordered. |
| `Dispatch.EndsOutside` | node/internal/shell/commands.go:2266-2310 | What finally runs has a handler and is none of the commands that call back, save busybox printing its own usage or list. |
| `Dispatch.SudoSays` | node/internal/shell/commands.go:1364-1374 | `sudo` runs its operands with their input for root, refuses anyone else with exit code 1, and says how it is used without operands. |
| `Dispatch.XargsSays` | node/internal/shell/commands.go:1828-1835 | `xargs` runs its operands with the fields of its input behind them. |
| `Dispatch.NohupSays` | node/internal/shell/commands.go:2081-2094 | `nohup` runs its operands behind its notice. |
| `Dispatch.TimeoutSays` | node/internal/shell/commands.go:2083-2085 | `timeout` drops the duration and runs the rest. |
| `Dispatch.WatchSays` | node/internal/shell/commands.go:2081-2094 | `watch` runs its operands, without a notice. |
| `Dispatch.BusyboxSays` | node/internal/shell/commands.go:2266-2298 | busybox runs an applet of its table with the words as they are, and answers any other name with exit code 127. |
| `Dispatch.OthersRun` | node/internal/shell/commands.go:46-59 | Any other command runs with its words and its input; a name without a handler is unknown. |
| `Dispatch.AssignmentSays` | node/internal/shell/commands.go:21-38 | `NAME=value` in front of a command sets that variable to all that follows the first `=`, and the rest runs with it. |
| `EchoCommand.Unescape` | node/internal/shell/commands.go:463-505 | The escape loop computes the specified text of every input. |
| `EchoCommand.Expand` | node/internal/shell/commands.go:508-542 | The loop over `$` references computes the specified expansion. |
| `EchoCommand.ExpandNothing` | node/internal/shell/commands.go:509-511 | The shortcut is sound: text without `$` expands to itself. |
| `EchoCommand.ExpandSpelled` | node/internal/shell/commands.go:508-542 | For any text made of plain parts, `$NAME`, `${NAME}` and `$?`, expansion replaces each reference by its value, leaves the rest alone and expands no value again. |
| `EchoCommand.NamesAre` | node/internal/shell/commands.go:508-542 | A name that a reference can spell is letters, digits and underscores. |
| `EchoCommand.Echo` | node/internal/shell/commands.go:426-457 | The command's single loop over flags and words prints the specified text. |
| `EchoCommand.UnescapeHex` | node/internal/shell/commands.go:490-498 | Interpreting the `\xNN` form of any bytes gives those bytes. |
| `EchoCommand.EchoHex` | node/internal/shell/commands.go:426-505 | `echo -ne` of that form prints exactly the bytes, whatever the environment. |
| `EchoCommand.EchoPrints` | node/internal/shell/commands.go:426-457 | With any flags, words without references are printed with a blank between them, their escapes interpreted exactly if a flag asks for it, and a newline exactly if no flag suppresses it. |
| `EchoCommand.PrintfPrints` | node/internal/shell/commands.go:426-457 | `printf` interprets escapes and adds no newline. |
| `EchoCommand.UnescapeNamed` | node/internal/shell/commands.go:470-489 | What the nine escapes with a meaning of their own stand for. |
| `EchoCommand.UnescapeUnknown` | node/internal/shell/commands.go:499-503 | A backslash before anything else, or at the end, stays. |
| `EchoCommand.UnescapeHexAt` | node/internal/shell/commands.go:490-498 | Two hexadecimal digits of either case are a byte; `\x` before anything else stays. |
| `EchoCommand.DecimalReads` | node/internal/shell/commands.go:508-542 | The last exit code is written in decimal digits that read as it. |
| `Shells.Shell.RunStage` | node/internal/shell/commands.go:21-59 | Dispatch of one command ends, and session, output and exit code are those of the specification, in which only the effect of a command that is not modelled is an input; the filesystem stays sound in every case. |
| `Shells.Shell.Handle` | node/internal/shell/commands.go:46-48 | The same for a command whose handler has been found. |
| `Shells.Shell.RunSudo` | node/internal/shell/commands.go:1364-1374 | The same for `sudo`, which runs its operands for root and refuses anyone else. |
| `Shells.Shell.RunXargs` | node/internal/shell/commands.go:1828-1835 | The same for `xargs`, with the fields of its input as further arguments. |
| `Shells.Shell.RunNohup` | node/internal/shell/commands.go:2081-2094 | The same for `nohup`, `timeout` and `watch`, with the notice in front for the first. |
| `Shells.Shell.RunBusybox` | node/internal/shell/commands.go:2266-2298 | The same for busybox applets, unknown ones answered with `applet not found`. |
| `Shells.Shell.Save` | node/internal/shell/shell.go:409-420 | `>` writes the output or reports the refusal, and reports an upload exactly when something non-empty was written. |
| `Shells.Shell.Add` | node/internal/shell/shell.go:422-428 | `>>` adds the output or reports the refusal, and never reports an upload. |
| `Shells.Shell.RunRedirected` | node/internal/shell/shell.go:399-437 | One stage moves the whole session as specified: its output is redirected, shown or handed on, exactly one of the three. |
| `Shells.Shell.RunPipeline` | node/internal/shell/shell.go:397-438 | The whole session after a pipeline of any length is the fold of its stages, each one's output being the next one's input. |
| `Shells.PipelineDetermined` | node/internal/shell/shell.go:397-438 | Where every stage comes down to an answer, an unknown word or echo, the session before a pipeline decides the one after. |
| `Pipelines.ChainPrints` | node/internal/shell/shell.go:397-438 | A pipeline of `echo words` and any number of `xargs echo ops` prints once and nothing else all the operands, those of later stages first: each stage reads what the one before printed. |
| `Pipelines.EchoIntoXargs` | node/internal/shell/commands.go:1828-1835 | After `echo words`, `xargs cmd ops` runs the command with its operands and then the words, and nothing on its input. |
| `Pipelines.RedirectedHandsNothing` | node/internal/shell/shell.go:409-428 | A redirected stage hands nothing on. |
| `Pipelines.RedirectedStarves` | node/internal/shell/shell.go:397-438 | With the first stage redirected, the file gets its words and `xargs echo ops` after it prints its operands alone. |
| `Pipelines.LastIsShown` | node/internal/shell/shell.go:430-432 | Of any pipeline whose last stage is not redirected, exactly that stage's text is shown, if it has one. |
| `Pipelines.RedirectSays` | node/internal/shell/shell.go:409-420 | `echo words > f` leaves the words in the file with a report of the upload, or says why not with exit code 1 and changes nothing. |
| `Pipelines.AppendSays` | node/internal/shell/shell.go:422-428 | `echo words >> f` adds them without a report, or says why not with exit code 1 and changes nothing. |
| `Pipelines.UnknownEffect` | node/internal/shell/commands.go:46-59 | A name without a handler is reported with exit code 127. |
| `Pipelines.PathEffect` | node/internal/shell/commands.go:50-59 | A path to no command is reported as missing with exit code 127, or as not permitted with 126, by whether it resolves. |
| `Shells.Shell.ExecLine` | node/internal/shell/shell.go:375-393 | The whole session and the exit codes after a line are the fold of its first pipelines; each of those lets the next one on by its operator, and only an operator or an exit cuts the line short. |
| `Pipelines.ListSays` | node/internal/shell/shell.go:375-393 | A list of pipelines runs, in order, exactly up to the first that fails before an and-operator or succeeds before an or-operator, and prints the texts of those that ran. |
| `Pipelines.LineStops` | node/internal/shell/shell.go:375-393 | Of any line, exactly those pipelines run: up to an operator that stops it or an exit. |
| `Shells.Utf8Reads` | node/internal/shell/shell.go:409-437 | A character's bytes are its UTF-8 form: they decode to it. |
| `Shells.RunScript` | node/internal/shell/shell.go:180-211 | Any sequence of command lines, whatever the commands do with the filesystem's operations and however many lines the session's limits admit, leaves a tree within the write quota, with plain links if it was built with such. |
| `Payload.ParsedLine` | node/internal/shell/parser.go:37-199 | The line `echo -ne '...' > f`, or with `>>`, parses to one command with that redirection, for any bytes and any bare word `f`. |
| `Payload.Enter` | node/internal/shell/shell.go:375-438 | Entering such a line changes the session by saving or adding exactly the decoded bytes, and by nothing else but the exit code. |
| `Payload.DropFirst` | node/internal/shell/shell.go:409-420 | The first line leaves the file holding exactly its chunk and reports one upload equal to it. |
| `Payload.DropNext` | node/internal/shell/shell.go:422-428 | Each further line extends the file by exactly its chunk and reports nothing. |
| `Payload.Drop` | node/internal/shell/shell.go:375-438 | For every cut of every byte string into chunks, the file reads back as the whole string, no path outside it changed, and the one upload is the first chunk. |
| `LineEditor.PressKeepsScreen` | node/internal/shell/shell.go:258-319 | Every key keeps the terminal showing what the prompt shows, and the buffer after it. |
| `LineEditor.Console.HandleKey` | node/internal/shell/shell.go:258-319 | The switch over one key edits, echoes and ends the line as specified. |
| `LineEditor.Console.ReplaceLine` | node/internal/shell/shell.go:323-329 | Recalling a line erases exactly the old one and types the new one. |
| `LineEditor.Console.EditLoop` | node/internal/shell/shell.go:258-319 | The loop over the bytes of one read computes the specified editing and echo. |
| `LineEditor.Console.ReadLine` | node/internal/shell/shell.go:217-321 | For every sequence of reads: line, outcome, echo, keystroke gaps, bulk flag, input count and exit flag are those of the specification; history indexing stays in range. |
| `LineEdits.TypedIsLine` | node/internal/shell/shell.go:217-321 | What is typed is the line: printable bytes cut into any reads within the limit, and a return, are handed on behind what was on the line; the rest of that read is dropped. |
| `LineEdits.LineOfScript` | node/internal/shell/shell.go:217-321 | Any script of keys, cut into any reads that keep each key whole, gives the line its keys say. |
| `LineEdits.LogoutOfScript` | node/internal/shell/shell.go:275-280 | ^D on an empty line ends the session. |
| `LineEdits.TypingAppends` | node/internal/shell/shell.go:313-317 | Each character typed is appended. |
| `LineEdits.RuboutsRemove` | node/internal/shell/shell.go:282-286 | Each backspace takes off the last character, if there is one. |
| `LineEdits.ErasesLine` | node/internal/shell/shell.go:270-292 | ^U and ^C empty the line and leave the place in the history. |
| `LineEdits.ArrowsRecall` | node/internal/shell/shell.go:294-309 | From a fresh line, going up and then down ends at the entry so many places back and forth, and past the last one on an empty line. |
| `LineEdits.OthersIdle` | node/internal/shell/shell.go:275-312 | Other control characters and sequences, and ^D on a line that is not empty, do nothing. |
| `LineEdits.ReadsReport` | node/internal/shell/shell.go:233-256 | While the line lasts: the bytes counted, the gaps kept, and pasting reported exactly when some read held more than two printable bytes. |
| `LineEdits.LimitStops` | node/internal/shell/shell.go:244-247 | The read that passes the input limit ends the reading, and none of it reaches the line. |
| `LineEditor.ChunkKeepsScreen` | node/internal/shell/shell.go:258-319 | Within one read, as long as typing goes on, the terminal shows prompt and buffer. |
| `LineEditor.ReadKeepsScreen` | node/internal/shell/shell.go:217-321 | Over any sequence of reads that does not end the line, the terminal shows prompt and buffer. |
| `LineEditor.ScreenEqualsBuffer` | node/internal/shell/shell.go:217-329 | From a fresh line: after any input that has not ended the line, a terminal replaying the echo shows what the prompt alone shows, never erased, followed by the buffer. |
| `LineEditor.PromptVisible` | node/internal/shell/shell.go:465-476 | Any prompt that does not itself move the cursor back, control characters in a directory name included, shows its visible characters. |
| `Telnet.TelnetConn.SkipSub` | node/internal/protocols/telnet/server.go:357-371 | Skips to the end of the subnegotiation or of the stream and delivers nothing. |
| `Telnet.TelnetConn.Read` | node/internal/protocols/telnet/server.go:332-394 | For any buffer and any answer about buffered bytes, what is delivered is the filter's output on what was consumed; an error means the stream is used up. |
| `Telnet.TelnetConn.ReadAll` | node/internal/protocols/telnet/server.go:332-394 | However reads are sized, their concatenation is one pass of the five-state filter over the stream. |
| `Telnet.RunConcat` | node/internal/protocols/telnet/server.go:332-394 | Filtering two parts in turn is filtering the whole. |
| `Telnet.FilterEncoded` | node/internal/protocols/telnet/server.go:332-394 | Payload with 0xFF doubled and complete negotiation sequences inserted filters back to the payload less its NULs. |
| `Telnet.EncodingIs` | node/internal/protocols/telnet/server.go:332-394 | How those sequences are written, in byte values. |
| `Telnet.PayloadSurvivesIff` | node/internal/protocols/telnet/server.go:379-381 | The payload survives unchanged if and only if it holds no NUL. |
| `Kex.ParseHello` | node/internal/protocols/sshd/kexsniff.go:100-168 | For every buffer the parser stays in range and computes the specified hello. |
| `Kex.CollectLists` | node/internal/protocols/sshd/kexsniff.go:140-159 | The ten-list loop, with 32-bit length arithmetic, computes the specified lists. |
| `Kex.ParsedIsFinal` | node/internal/protocols/sshd/kexsniff.go:100-168 | Once a buffer parses, every extension of it parses to the same hello. |
| `Kex.ListRoundTripIff` | node/internal/protocols/sshd/kexsniff.go:151-157 | A joined name-list splits back to itself if and only if no name holds a comma and it is not the list of one empty name. |
| `Kex.ReadEncodedLists` | node/internal/protocols/sshd/kexsniff.go:140-159 | Encoded lists read back one by one, whatever follows. |
| `Kex.ParseEncoded` | node/internal/protocols/sshd/kexsniff.go:100-168 | For any comment lines, banner, cookie, padding and ten encodable lists, parsing the encoding returns the banner and lists 0, 1, 2, 4 and 6. |
| `Kex.ParsedNeeds` | node/internal/protocols/sshd/kexsniff.go:100-138 | Whatever parses has a line that starts with `SSH-`, and after it a whole packet with message number 20, long enough for its cookie. |
| `WebSessions.Conserved` | node/internal/protocols/web/server.go:339-398 | Starts = ends + live sessions + sessions taken out whose end is not reported yet. |
| `WebSessions.OpenKeeps` | node/internal/protocols/web/server.go:353-357 | Opening a session keeps every session in one place only. |
| `WebSessions.TakeKeeps` | node/internal/protocols/web/server.go:364-369 | Taking a session out of the table keeps it in one place only. |
| `WebSessions.EndKeeps` | node/internal/protocols/web/server.go:372-377 | Reporting an end keeps ends unique and after their start. |
| `WebSessions.Server.SessionFor` | node/internal/protocols/web/server.go:339-358 | A known source keeps its session; a new one gets a session never started before, unless the positive budget is spent, when nothing changes. |
| `WebSessions.Server.TakeOut` | node/internal/protocols/web/server.go:361-370 | A sweep keeps exactly the sessions seen recently enough, a shutdown none, and hands over the rest without reporting anything. |
| `WebSessions.Server.EndOne` | node/internal/protocols/web/server.go:372-377 | Any one of the sessions taken out has its end reported, in whatever order. |
| `WebSessions.Serve` | node/internal/protocols/web/server.go:339-398 | Over every interleaving of requests, sweeps, shutdowns and ends reported in any order: the books balance, no session ends twice or before it starts, and the budget holds. |

## Left out

- Delivery.NoSilentLoss: stated for at most 2^64 reservations, because beyond them it is false (`Delivery.WrapLosesRecord`); "on the bus" is as far as the code confirms, so nothing is claimed about a collector that is not subscribed.
- Sensors.Execute: a flush that succeeds is taken to mean that nothing published in its batch was lost, which `Delivery.UncoveredFlushLoses` shows to be needed; a client library that loses its write buffer on reconnection and then reports success is not captured. Bytes arrive in the order they were published.
- Spools.Spool.Store: nothing is claimed about the spool's size, because the size call is a library value that need not shrink.
- Sensors.Sensor.Drain: reconnection policy, timers and the final flush at shutdown are not modelled; `dropped` and the counters of the collector are unbounded naturals.
- SeqTracking.SeqTracker.Observe: wraps at 2^64 as a release build does; a build with overflow checks would panic there instead.
- Ingest.Ingestor.PutEvent: the credentials and artifacts tables only contribute a statement that may fail; they have no conflict clause, so a replay adds rows there. Columns that are cast to 32 bits are kept as numbers.
- Ingest.Ingestor.Handle: payload truncation and field mapping of `normalize_payload`, protobuf decoding and logging are not modelled; the envelope's payload is taken as decoded. Handling is one message at a time.
- LiveIndexes.LiveIndex.Ingest: the read-only queries (`sessions`, `stats`, `top_n`) are not modelled; the three profile fields are set together, and so are the four of a heartbeat; the geo lookup is a function parameter.
- Trees.Closed: owners are not part of a node; a node table replaces heap objects, and file contents are values, so Go slices shared after `cp` and then appended to are not captured.
- Vfs.FS.Built: takes the stock tree as a parameter; its several hundred entries are not spelled out.
- Vfs.FS.Touch: modification times are not part of a node, so touching what exists changes nothing.
- Vfs.FS.Rename: writing to a nil map makes the Go code panic; here and in `MkdirAll` it is the outcome `NilMapWrite`, with the tree as the code leaves it.
- ReadBack.ThroughLinkIff: decides the condition where at most the last entry of the parent path is a link, to plain names or to an absolute target; for other links, which the program never makes, `ReadBack.ReadBackIff` states it without deciding it.
- MidPathLinks.MidPathLinkIff: a relative target with `.` or `..` in it, which the program never makes, may or may not lead where it means to; `MidPathLinks.MidPathLink` says what it resolves to.
- VfsLaws.OthersUnchanged: stated for paths without links; a path through a link may of course lead to what was written.
- Tokenizer.Tokenize: a line is a sequence of Unicode characters; invalid UTF-8, which Go turns into replacement characters, is not modelled. The here-document field, never set by the parser, is left out.
- Dispatch.FieldsJoin: white space between fields is the ASCII kind.
- Dispatch.Settled: the table of handlers is a parameter; which names are in it, and the busybox usage and list texts, are left out.
- Shells.Shell.Other: commands other than echo, printf and those that call back are one arbitrary command: it may change the session, report uploads, and apply any sequence of the modelled filesystem operations. What each prints, and the delays of failed authentication, are left out.
- Shells.RunScript: the limits on commands and input bytes only end a session sooner and are not modelled; an operation that panics is taken to end without effect beyond the tree it leaves.
- Shells.Shell.RunPipeline: the upload hook is taken to be set, and the CRLF translation of output is left out.
- Shells.Shell.ExecLine: nothing is claimed about agreement with POSIX AND-OR lists, since a failed `&&` ends the whole line in the code.
- Payload.Drop: stated for a file name without characters special to the shell, under directories without links, and for a total within the quota.
- LineEditor.ScreenEqualsBuffer: a prompt that itself moves the cursor back, by a backspace or a line end in a directory name, is outside it, because no text is then shown before the first key. The terminal puts every character from U+0020 up, except U+007F, in one cell of a line that never wraps; control characters of the C1 range, wide characters and history entries that are not printable are not captured.
- Telnet.TelnetConn.Read: deadlines are left out; the stream is what arrives before the connection fails.
- Kex.ParseHello: the capturing connection around the parser, with its size limit, is left out; machine integers have 64 bits.
- WebSessions.Server.TakeOut: the order in which a Go map is walked is any order; request handling, canary sessions and events recorded by a request that still holds an ended session are left out.
- Regular-expression classifiers, ATT&CK rules, clustering, STIX output, geography, credential derivation, personalities, algorithm tables, decoy pages, admission counters and the dashboard: library-bound, tables, or easy members.

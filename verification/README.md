# AEGIS-NEXUS collector: verified model

AEGIS-NEXUS collects events from honeypot sensors. This project models the parts of the collector and of the sensor
client whose guarantees have to hold over every run, and proves those guarantees. `dafny verify dfyconfig.toml` checks
the whole project.

| file | what it models |
|---|---|
| `Wrappers.dfy`, `Sequences.dfy` | missing values, results, slices |
| `Ordering.dfy` | the total orders behind ORDER BY, sorting, and counting in sorted listings |
| `Ranges.dfy` | sets of numbers as compacted interval rows, with one canonical form |
| `SensorSequence.dfy` | stream and range tables, eviction, recording, heartbeats, gap report and summary |
| `SequenceRuns.dfy` | whole runs of received numbers: duplicates, arrival order, honesty of the loss count |
| `SequenceProtocol.dfy` | the sensor client, and the protocol of sensor, lossy network and collector |
| `EventChain.dfy` | hashing, append, the streaming verifier, what removal and tampering leave |
| `Correlation.dfy`, `Sessions.dfy` | identities, session ids, joining, sessions as maximal runs |
| `Store.dfy` | the ingest transaction, retention, capacity and maintenance over events, sessions, chain and sequences |
| `ReplayGuard.dfy` | freshness window and nonce reservation |
| `RateLimit.dfy` | the sliding-window limiter against a full log |
| `Base64.dfy`, `Pagination.dfy` | the page cursor, keyset pages, walks over a changing table, the history read |
| `Migrations.dfy` | schema upgrades raced by any number of workers |
| `RelationGraph.dfy` | graph scoping and breadth-first shortest paths of the dashboard |
| `Normalizer.dfy` | bounded normalisation of payloads with its audit of losses |
| `Stix.dfy` | STIX pattern escaping, bundle export and import |

Tables are maps held in class fields and a transaction is one atomic method; each method is proved against a plain
specification (a set of numbers, a full log, a chain of records), and the theorems are about that specification over
all runs. Instants are integers (reals in the limiter) except in pagination, where the stored text itself is compared.
SHA-256, JSON text and other library functions are parameters. A theorem that depends on a hash asks only that the texts
at hand do not collide, or names the collision as the other outcome; one that depends on JSON asks only that the cursor
payloads written are read back.

## What the proofs found

- A stream whose own touch evicts it (32 streams of the sensor seen later than `now`) makes the INSERT of its first
  range violate the foreign key, so the whole ingest is rolled back: `LateStreamRefused`, exactly
  `TouchedStreamSurvives`.
- A late token-free event that repeats the start of a temporal session of its identity collides with its primary key
  and is refused: `LateRepeatConflicts`, exactly `LateRepeatsExactly`. A bar in a field can have the same effect on an
  event that is not late: `RivalRefuses`. Over all identities the condition is `ConflictsExactly`.
- Session ids hash the identity and a suffix joined by bars, so bars in the service, the protocol, the scope of an IPv6
  address or an explicit token can merge two identities: `BarsCollide`, `ScopesCollide`, `TokensCollide`. Exactly
  `EventsToldApart` under one suffix, `TokensToldApart` for explicit tokens, `ToldApartAlways` over all texts.
- A flow id and its start are joined by a colon, so a colon in the id can give two flows one session:
  `FlowTokensCollide`, exactly `FlowsToldApart`.
- `verify_chain` with `max_problems` zero or negative reports ok for every chain: `ZeroLimitHidesProblems`, exactly
  `VerifyChain`.
- Oldest-first deletion can break the chain when arrival order and chain order differ: `ClockStepBreaksPruning`, exactly
  `OldestFirstIsSafe`.
- A nonce expires at reservation plus window, a signature at its timestamp plus window, and check and reservation read
  the clock separately, so a request can be accepted twice even when dated before its acceptance: `StraddlingReplay`,
  exactly `ReplayableExactly`.
- A page cursor is refused by its own decoder when the row id has more than 256 characters or the JSON more than 768
  bytes; ingest checks that ids parse as UUIDs but does not bound their length: `LongIdRefused`, exactly
  `CursorRoundTrip` and `TokenContinues`.
- A dictionary key that is no text is turned into text without a note; JSON payloads have none: `SilentRename`, exactly
  `ChangedExactly`.
- The pattern importer also reads a raw quote behind an escaped backslash, where the string literal of section 9 of
  OASIS STIX 2.1 would end: `RawQuoteAccepted`, exactly `EscapedExactly`.

## Model

| member | source | states |
|---|---|---|
| Ranges.Canonical | src/aegis_nexus/sensor_sequence.py:120-179 | Rows that are proper, disjoint and non-adjacent represent a set of numbers in one way only: equal sets mean equal tables. |
| Ranges.RowsStartRuns | src/aegis_nexus/sensor_sequence.py:134-161 | In such a table a row starts exactly where a maximal run of received numbers starts. |
| Ranges.RowCount | src/aegis_nexus/sensor_sequence.py:163-167 | The COUNT(*) of range rows is the number of maximal runs of the received set. |
| Ranges.RunCountAfterInsert | src/aegis_nexus/sensor_sequence.py:143-179 | A new number adds one run when neither neighbour was received, joins two runs when both were, and otherwise changes no count, so only the first branch can exceed the row limit. |
| Ranges.JoinBoth | src/aegis_nexus/sensor_sequence.py:143-151 | Deleting the right row and extending the left one over it leaves a well-formed table of the old numbers and the new one. |
| Ranges.ExtendLeft | src/aegis_nexus/sensor_sequence.py:152-156 | Extending the row that ends just before the number adds exactly that number and keeps rows disjoint and non-adjacent. |
| Ranges.ExtendRight | src/aegis_nexus/sensor_sequence.py:157-161 | Moving the start of the row just after the number adds exactly that number and keeps rows disjoint and non-adjacent. |
| Ranges.InsertAlone | src/aegis_nexus/sensor_sequence.py:175-179 | A one-number row adds exactly that number when no neighbour is stored. |
| SensorSequence.AddNumber | src/aegis_nexus/sensor_sequence.py:134-179 | The four-way update represents the old set plus the number and answers received, or, exactly when no neighbour is stored and 256 runs are, leaves the table alone and answers untracked. |
| SensorSequence.RecordedIsSound | src/aegis_nexus/sensor_sequence.py:120-190 | Receiving any valid number keeps a stream sound: at most 256 runs, numbers within 1..max_received, received_count equal to the stored numbers until detail is truncated and never below them. |
| SensorSequence.OutcomeExactly | src/aegis_nexus/sensor_sequence.py:120-179 | In a sound stream a number is a duplicate exactly when stored, untracked exactly when neither it nor a neighbour is stored and 256 runs are, and received otherwise. |
| SensorSequence.EvictionBounds | src/aegis_nexus/sensor_sequence.py:76-102 | After a touch the sensor has all its streams or exactly 32; streams of other sensors, and every surviving stream, are unchanged, and both tables name the same streams. |
| SensorSequence.EvictionKeepsNewest | src/aegis_nexus/sensor_sequence.py:85-102 | Every evicted stream was seen before every surviving stream of its sensor by (last_seen_at, stream_id). |
| SensorSequence.TouchedStreamSurvives | src/aegis_nexus/sensor_sequence.py:76-102 | The touched stream survives its own touch if and only if fewer than 32 other streams of the sensor are seen later; in particular when its time is strictly newest. |
| SensorSequence.FullSensorIsSound | src/aegis_nexus/sensor_sequence.py:76-102 | That full sensor is a sound state of the tables. |
| SensorSequence.LateStreamRefused | src/aegis_nexus/sensor_sequence.py:105-190 | A sensor with 32 sound streams seen later than the event: the number of a new stream is refused. |
| SensorSequence.EnsuredIsSound | src/aegis_nexus/sensor_sequence.py:76-102 | A touch keeps every stream sound and every sensor within 32 streams. |
| SensorSequence.RecordedInIsSound | src/aegis_nexus/sensor_sequence.py:105-190 | A stored event number keeps both tables sound. |
| SensorSequence.ReportedInIsSound | src/aegis_nexus/sensor_sequence.py:193-207 | A heartbeat keeps both tables sound. |
| SensorSequence.RecordedStreams | src/aegis_nexus/sensor_sequence.py:105-190 | Recording changes the named stream as receiving one number on a plain set does, and no other stream. |
| SensorSequence.ReportedStreams | src/aegis_nexus/sensor_sequence.py:193-207 | A heartbeat only raises max_reported_sequence of its own stream. |
| SensorSequence.Gaps | src/aegis_nexus/sensor_sequence.py:210-228 | Lists the first ten maximal missing runs of 1..highest in order, or all of them; when fewer than ten are listed their lengths sum to the number of missing numbers. |
| SensorSequence.GapLengthsCount | src/aegis_nexus/sensor_sequence.py:210-228 | The lengths of ascending gaps add up to the number of distinct numbers in them. |
| SensorSequence.TotalsAreSums | src/aegis_nexus/sensor_sequence.py:252-262 | The totals of a sensor are zero over no stream, and each further stream adds its own received, missing and duplicate counts. |
| SensorSequence.SequenceStore.constructor | src/aegis_nexus/sensor_sequence.py:76-102 | The empty tables are sound. |
| SensorSequence.SequenceStore.DeleteStreams | src/aegis_nexus/sensor_sequence.py:94-102 | The loop deletes exactly the stale streams and their range rows. |
| SensorSequence.SequenceStore.EnsureStream | src/aegis_nexus/sensor_sequence.py:76-102 | Upsert, ordered selection and deletion loop together keep exactly the 32 newest streams of the sensor, and no range row without its stream. |
| SensorSequence.SequenceStore.RecordEventSequence | src/aegis_nexus/sensor_sequence.py:105-190 | The interval tables stay a representation of plain sets of numbers and the answer is the plain-set answer; when the touched stream was evicted the foreign key fails and both tables are as before. |
| SensorSequence.SequenceStore.RecordHeartbeatSequence | src/aegis_nexus/sensor_sequence.py:193-207 | The tables follow the plain-set model of a heartbeat, which writes no counter when the touch evicted the stream. |
| SensorSequence.SequenceStore.FirstSummary | src/aegis_nexus/sensor_sequence.py:246-271 | A new summary entry describes the newest stream: its counters, highest number and first missing runs. |
| SensorSequence.SequenceStore.SequenceSummary | src/aegis_nexus/sensor_sequence.py:231-274 | Every stored sensor, and no other, gets the totals over all its streams, the description of its newest stream, and the state gaps_detected exactly when something is missing. |
| SequenceRuns.RunCharacterised | src/aegis_nexus/sensor_sequence.py:105-190 | Over every run on a new stream: stored numbers are those answered received, received plus duplicate answers count the arrivals, and detail is truncated exactly when some answer was untracked. |
| SequenceRuns.AnswersExactly | src/aegis_nexus/sensor_sequence.py:120-190 | Over every run each answer follows from the numbers stored before it: a new number is stored exactly when a neighbour is or fewer than 256 maximal runs are. |
| SequenceRuns.TruncatedExactly | src/aegis_nexus/sensor_sequence.py:163-174 | Over every run on a new stream detail is truncated if and only if the received numbers, stored or not, made more than 256 maximal runs at some time. |
| SequenceRuns.RoomForRuns | src/aegis_nexus/sensor_sequence.py:163-174 | Of the odd numbers in order the first 256 are stored and the 257th is not. |
| SequenceRuns.DuplicateMeansReceivedBefore | src/aegis_nexus/sensor_sequence.py:120-132 | The i-th answer is duplicate exactly when an equal number was stored before; while the received numbers never made more than 256 runs, exactly when an equal number had arrived before. |
| SequenceRuns.OrderIndependent | src/aegis_nexus/sensor_sequence.py:105-190 | Two arrival orders of the same multiset whose received numbers never make more than 256 runs end with equal counters, equal numbers and identical range rows. |
| SequenceRuns.MissingIsHonest | src/aegis_nexus/sensor_sequence.py:242-245 | The reported loss never exceeds the true number of unreceived numbers of 1..highest, and equals it while detail is not truncated. |
| SequenceRuns.TotalMissingIsHonest | src/aegis_nexus/sensor_sequence.py:257-261 | A sensor's total missing counts only (stream, number) pairs that were announced and never received, and all of them unless some stream is truncated. |
| SequenceProtocol.SensorClient.NextSequence | src/aegis_nexus/sensors/client.py:69-72 | Takes the next number: one more than any taken before. |
| SequenceProtocol.SensorClient.Emit | src/aegis_nexus/sensors/client.py:87-122 | A number is consumed by every emit of a sensor with a key, also when the event is dropped as oversize or unanswered. |
| SequenceProtocol.SensorClient.EmitHeartbeat | src/aegis_nexus/sensors/client.py:154-175 | A heartbeat carries the last number taken and takes none. |
| SequenceProtocol.StepsHappen | src/aegis_nexus/sensor_sequence.py:105-190 | An emit sends the next number, a heartbeat the last one, and a delivered number that does not evict its own stream is recorded and counted. |
| SequenceProtocol.EvictedExactly | src/aegis_nexus/sensor_sequence.py:85-102 | A stream counts as evicted exactly from the step on that deletes its row. |
| SequenceProtocol.StepKeepsInv | src/aegis_nexus/sensor_sequence.py:105-274 | Any step of sensor, lossy network and collector, on this stream or others, keeps the stored stream in agreement with what was emitted and delivered. |
| SequenceProtocol.GapAccounting | src/aegis_nexus/sensor_sequence.py:231-274 | For any interleaving of emits, heartbeats, losses, reorderings, repeats and other traffic, on a stream not evicted: highest never exceeds the numbers emitted, stored numbers were delivered, the loss is never overstated, and it is exact unless the delivered numbers once made more than 256 runs, which is exactly when detail is marked truncated. |
| SequenceProtocol.CrowdedExactly | src/aegis_nexus/sensor_sequence.py:163-174 | The mark used there is set exactly when the delivered numbers made more than 256 runs at some time of the run. |
| SequenceProtocol.EmitsAreCounted | src/aegis_nexus/sensors/client.py:69-122 | Over every run the last number taken is the number of emits. |
| SequenceProtocol.InformedThroughout | src/aegis_nexus/sensor_sequence.py:193-207 | Once the collector knows the last number taken, it keeps knowing it until the next emit or its eviction. |
| SequenceProtocol.SettledLoss | src/aegis_nexus/sensor_sequence.py:193-274 | After a heartbeat taken after the last emit arrives, missing equals emitted minus delivered unless the delivered numbers once made more than 256 runs, and never exceeds it. |
| EventChain.AppendKeepsOk | src/aegis_nexus/event_chain.py:43-58 | Appending keeps an intact chain intact, restarts an emptied one, never reuses a chain number, and links the new record to the stored head or to 64 zeros. |
| EventChain.NoGaps | src/aegis_nexus/event_chain.py:87-93 | An intact chain holds every number between any two of its records. |
| EventChain.RemovalVerifies | src/aegis_nexus/event_chain.py:61-118 | What is left of an intact chain verifies if and only if it is a non-empty tail: removing interior or last records is always reported, removing a prefix never is. |
| EventChain.SameTail | src/aegis_nexus/event_chain.py:37-40 | Backward induction along prev_hash: equal record hashes fix every earlier record that both chains hold. |
| EventChain.HeadCommitsToChain | src/aegis_nexus/event_chain.py:37-40 | Two chains that verify with the same head row and the same number of records agree on every hashed column of every record, unless two equally numbered records collide under the hash. |
| EventChain.TamperingIsReported | src/aegis_nexus/event_chain.py:61-118 | A chain of the same length that lacks a record of an intact chain, or holds any other value, NULL included, in a hashed column or another hash, does not verify under the same head row. |
| EventChain.NoProblemsMeansOk | src/aegis_nexus/event_chain.py:83-106 | The row by row checks and the head check find nothing exactly when every hash recomputes, every record but the first is linked to its predecessor and the head row names the last record. |
| EventChain.CheckRow | src/aegis_nexus/event_chain.py:84-98 | The three checks of one row log exactly its sequence gap, broken link and hash mismatch, within the problem limit. |
| EventChain.VerifyChain | src/aegis_nexus/event_chain.py:61-118 | ok exactly when the chain is intact or max_problems is not positive; the problems are the first max_problems of those the records and the head row have, by ascending chain number and within a row gap, link, hash, the head last; truncation is flagged exactly when one is left out, records_verified counts the recomputing records and pruned_before is the first number when it exceeds 1. |
| EventChain.ProblemsExactly | src/aegis_nexus/event_chain.py:84-116 | Each problem is found exactly under its condition and once: a gap between consecutive stored numbers, a link that differs from the hash of the greatest smaller number, a hash that does not recompute, a missing head, a head that names another number or hash; in that order. |
| EventChain.EditedRecord | src/aegis_nexus/event_chain.py:94-96 | Editing a hashed column of one record of an intact chain is found as a hash mismatch of that record, and as nothing else. |
| EventChain.ZeroLimitHidesProblems | src/aegis_nexus/event_chain.py:66-71 | A chain with a broken record and no head row leaves an empty problem list under a limit of zero. |
| Correlation.SessionGap | src/aegis_nexus/correlation.py:8-12 | A setting of 1 to 180 minutes is the session gap; any other is held to that range. |
| Correlation.TokensMeet | src/aegis_nexus/correlation.py:33-43 | A sensor token equals another token exactly when the first 256 characters of both sensor session ids agree; it never equals a flow token. |
| Correlation.FlowTokensMeet | src/aegis_nexus/correlation.py:38-42 | Flow tokens whose ids hold no colon are equal exactly when the first 128 characters of the ids are and both starts are missing or equal in theirs. |
| Correlation.FlowsToldApart | src/aegis_nexus/correlation.py:38-42 | A flow is the only one with its token if and only if its id and start, joined, cannot be split otherwise into an id of 1 to 128 characters and nothing, or a colon and a start of 1 to 128 characters. |
| Correlation.FlowTokensCollide | src/aegis_nexus/correlation.py:38-42 | A flow id with a colon shares its token with another id and start. |
| Correlation.IdentitiesMeet | src/aegis_nexus/correlation.py:22-30 | Two events have one identity exactly when each of the five fields is equal, or missing, empty or the placeholder in both. |
| Correlation.RawKeyInjective | src/aegis_nexus/correlation.py:46-53 | Bar-free identities and suffixes are told apart by the text that is hashed into a session id. |
| Correlation.RawKeyText | src/aegis_nexus/correlation.py:46-53 | The hashed text is address, honeypot, service, protocol, port and suffix in this order. |
| Correlation.ToldApart | src/aegis_nexus/correlation.py:46-53 | Among the texts with one suffix, an identity is alone with its hashed text if and only if none of its text fields holds a bar; identities with bars count as rivals. |
| Correlation.ToldApartAlways | src/aegis_nexus/correlation.py:46-53 | Among all identities and all suffixes, a pair is alone with its hashed text if and only if no text field of the identity holds a bar and the suffix holds no decimal number closed by a bar at its start or behind another bar. |
| Correlation.ToldApartInTime | src/aegis_nexus/correlation.py:46-48 | The same across different bar-free suffixes such as session starts: then the suffix is fixed as well. |
| Correlation.IdentityFromEvent | src/aegis_nexus/correlation.py:22-30 | An identity made from an accepted event has an address as the address module writes it, bars in an IPv6 scope included, a honeypot name of safe characters, no empty part and a port of at most 65535. |
| Correlation.EventsToldApart | src/aegis_nexus/correlation.py:46-53 | Among such identities under one suffix, one is alone with its hashed text if and only if its service has no bar but a leading one, its protocol none but a closing one, and its address none between another address and a honeypot name. |
| Correlation.TokensToldApart | src/aegis_nexus/correlation.py:33-53 | Among such identities and the explicit tokens of events, a pair is alone with its hashed text if and only if the bars of the identity are harmless in that sense, the token holds no port between bars before another token, and the fields hold no other identity and port before what reads as a token. |
| Correlation.BarFreeHoldsNoToken | src/aegis_nexus/correlation.py:46-53 | An identity without bars never meets the last of these cases, so then only the token matters. |
| Correlation.RivalsFit | src/aegis_nexus/model.py:18-18 | Rivals keep within the string limit while the hashed text is no longer than one string may be. |
| Correlation.BarsCollide | src/aegis_nexus/correlation.py:46-53 | A bar inside a service name lets two identities share every session id. |
| Correlation.ScopesCollide | src/aegis_nexus/correlation.py:46-53 | So does a bar in the scope of an IPv6 source address, here fe80::1%e with a bar and web-1 behind it. |
| Correlation.TokensCollide | src/aegis_nexus/correlation.py:46-53 | An identity without bars and one with them share an explicit session id under two different sensor session names. |
| Correlation.TemporalIdsMeet | src/aegis_nexus/correlation.py:46-48 | Two temporal ids are equal if and only if the starts and the hashed texts are, or the cut digest collides, for any two identities. |
| Correlation.TemporalIdsDistinct | src/aegis_nexus/correlation.py:46-48 | The temporal id of a bar-free identity is shared if and only if identity and start are equal or the cut digest collides on the two texts. |
| Correlation.KindsDistinct | src/aegis_nexus/correlation.py:46-53 | Temporal and explicit ids never meet. |
| Sessions.ConflictsExactly | src/aegis_nexus/store.py:110-171 | An event of any identity is refused if and only if it has no token, a session that began at its instant under its hashed text (or a digest collision) holds its id, and its identity has been seen later or has paused for more than the gap or is new. |
| Sessions.LateRepeatsExactly | src/aegis_nexus/store.py:110-171 | While no stored session of another identity has its hashed text and no digest collides, an event is refused if and only if it has no token, repeats the start of a temporal session of its identity, and that identity has been seen later. |
| Sessions.BarFreeIsAlone | src/aegis_nexus/store.py:110-171 | An identity without bars is in that case unless a digest collides. |
| Sessions.InOrderConflictsExactly | src/aegis_nexus/store.py:110-171 | An event not older than any session of its identity is refused if and only if it has no token and nothing to join, and a session of another identity that began at its instant under its hashed text, or a digest collision, holds its id. |
| Sessions.InOrderNeverConflicts | src/aegis_nexus/store.py:110-171 | So such an event is never refused while no stored session of another identity has its hashed text and no digest collides. |
| Sessions.LateRepeatConflicts | src/aegis_nexus/store.py:110-171 | A late event that repeats the start of a closed session is refused. |
| Sessions.RivalRefuses | src/aegis_nexus/store.py:110-171 | The first event of an identity with a bar in its service is refused because another identity began a session at that instant. |
| Sessions.SelectsKeepsFiled | src/aegis_nexus/store.py:110-171 | Every session row stays filed under an id of its own identity, a temporal one under its start. |
| Sessions.OthersLeaveRows | src/aegis_nexus/store.py:110-171 | Events of other identities, with or without tokens and in any order, leave the temporal rows of an identity as they are. |
| Sessions.SessionsAreMaximalRuns | src/aegis_nexus/correlation.py:56-58 | For an identity whose events carry no token and come in order, with any other traffic in between, two of its events share a session if and only if no pause of the identity between them exceeds the gap. |
| Sessions.InOrderRunContinues | src/aegis_nexus/store.py:110-171 | In such a history the next event of the identity is refused if and only if it has nothing to join and a session of another identity that began at its instant under its hashed text, or a digest collision, holds its id. |
| Store.DeletionRestricts | src/aegis_nexus/store.py:271-279 | Deleting event rows restricts the chain to the remaining numbers. |
| Store.InsertionExtends | src/aegis_nexus/store.py:189-209 | Inserting a chained row with a new number adds one record and changes no other. |
| Store.HashedExactly | src/aegis_nexus/event_chain.py:26-40 | Two rows are hashed alike if and only if all fourteen stored values are equal, timestamps by their text. |
| Store.EditIsReported | src/aegis_nexus/event_chain.py:84-98 | Changing any stored value of one chained row of an intact table, its link kept, is found as a hash mismatch of that row and as nothing else, unless the hash collides there. |
| Store.HeadCommitsToRows | src/aegis_nexus/event_chain.py:37-40 | Two tables that verify under one head row with equally many chained rows store the same fourteen values and the same hash under every chain number, unless equally numbered records collide. |
| Store.EditsAreReported | src/aegis_nexus/event_chain.py:84-98 | After every run of ingest from an empty store an edited value of a stored event is the one problem found. |
| Store.DeletionVerifies | src/aegis_nexus/store.py:230-279 | After a deletion the chain verifies if and only if a chained row survives and no deleted row has an earlier survivor. |
| Store.OldestFirstIsSafe | src/aegis_nexus/store.py:236-246 | Every oldest-first deletion with a survivor leaves a verifying chain if and only if arrival order (collector_received_at, id) follows chain order. |
| Store.OldestFirstExactly | src/aegis_nexus/store.py:236-246 | A deletion is oldest first if and only if every deleted row was received before every row left, or at the same instant under an id that comes first in text order. |
| Store.ClockStepBreaksPruning | src/aegis_nexus/store.py:236-246 | Two appended records whose arrival instants are reversed: deleting the older row leaves a chain that does not verify. |
| Store.IngestKeepsAggregates | src/aegis_nexus/store.py:110-171 | Whatever the order of arrival, explicit and temporal events mixed, each session row stays the minimum, maximum and number of its events. |
| Store.IngestKeepsSpans | src/aegis_nexus/store.py:110-171 | With pruning allowed, each session row still spans and counts at least its remaining events. |
| Store.PruningKeepsSpans | src/aegis_nexus/store.py:274-279 | After a deletion the sessions are exactly those of the surviving events. |
| Store.RetainedExactly | src/aegis_nexus/store.py:271-279 | Retention of n days keeps exactly the rows received in the last n times 86400 seconds, unchanged, and every row when n is not positive. |
| Store.OldestAreOldestFirst | src/aegis_nexus/store.py:241-245 | The first rows of the capacity query are as many as asked for and spare no older row. |
| Store.Store.SelectOrCreateSession | src/aegis_nexus/store.py:110-171 | Joins, widens or opens a session as the rule says, or changes nothing because the temporal id exists already. |
| Store.Store.AppendRecord | src/aegis_nexus/event_chain.py:43-58 | Writes the chain columns of one row and the head so that the chain of the table is extended by exactly that record. |
| Store.Store.IngestTransaction | src/aegis_nexus/store.py:181-214 | All or nothing: each of the three refusals happens exactly under its condition and changes nothing; otherwise the session, the row, the next chain record and the sequence number are stored together and nothing else, and session summaries and an intact chain are kept. |
| Store.CommittedRow | src/aegis_nexus/store.py:189-209 | The chain record of a committed event holds its fourteen values, each in its own column, and its row the two instants. |
| Store.CommittedSession | src/aegis_nexus/store.py:110-171 | An event without a session name or flow id is filed in a session of its own five fields, missing ones read as unknown or 0; one with a session name under the hash of those fields and the first 256 characters of that name. |
| Store.CommittedNumber | src/aegis_nexus/store.py:210-214 | The sequence number of a committed event is stored under its honeypot and stream, unless the detail of that stream is truncated. |
| Store.Store.DeleteEvents | src/aegis_nexus/store.py:274-279 | Deletes the given rows and the sessions no surviving event names. |
| Store.Store.Prune | src/aegis_nexus/store.py:271-279 | Deletes exactly the rows received before the cutoff, nothing when retention is off, and reports how many. |
| Store.Store.EnforceCapacity | src/aegis_nexus/store.py:237-246 | Afterwards at most max_events rows remain, exactly max_events when anything was deleted, and the sessions are those of the survivors. |
| Store.Store.Maintain | src/aegis_nexus/store.py:230-253 | Runs only when forced or after 100 ingests; then retention deletes exactly the rows before its cutoff, capacity as many of the rest as exceed max_events, both are counted, and the sessions are those of the survivors. |
| Store.Store.Ingest | src/aegis_nexus/store.py:181-223 | A refused event changes nothing, the sequence tables included; any other is committed as the transaction says, followed by maintenance exactly at every hundredth. Without maintenance the session summaries stay exact, and a chain whose arrivals follow its order stays verifiable or is emptied. |
| Store.RunKeepsSummaries | src/aegis_nexus/store.py:110-223 | Over every run of ingest from an empty store without maintenance, in any order and with any refusals, each session row is the minimum, maximum and number of its events, and the chain verifies once it has a record. |
| Store.RunKeepsChain | src/aegis_nexus/store.py:181-279 | Over every run with retention and capacity deletions, when events are received one after the other, the chain verifies or has been emptied, every stored event has its session row, which spans and counts at least its events, and every session row is that of a stored event. |
| ReplayGuard.NonceStore.ReserveSensorNonce | src/aegis_nexus/store.py:83-108 | Reserves exactly when the nonce is not live and the sensor has room, after dropping expired rows in any case. |
| ReplayGuard.ReservesExactly | src/aegis_nexus/store.py:83-108 | A nonce is reserved exactly when its own reservation is over and fewer unexpired ones of the sensor are stored than its capacity. |
| ReplayGuard.VerifiedExactly | src/aegis_nexus/security.py:21-40 | A request is accepted exactly when it is well-formed, its signature matches and its timestamp lies within the skew on either side of now; never when it lies more than an hour away. |
| ReplayGuard.ReservationHeld | src/aegis_nexus/store.py:83-108 | Over every forward-clock history a reservation stays in the table until its clamped window has passed. |
| ReplayGuard.NoEarlyReuse | src/aegis_nexus/store.py:83-108 | No (sensor, nonce) is reserved again before its window has passed. |
| ReplayGuard.CapacityKept | src/aegis_nexus/store.py:94-106 | With one capacity in force no sensor ever holds more nonces than that. |
| ReplayGuard.AcceptedAtMostOnce | src/aegis_nexus/security.py:21-40 | With skew and window clamped alike, a signed request dated before its acceptance second is accepted at most once, for a later attempt that spends less time between check and reservation than the difference. |
| ReplayGuard.ReplayableExactly | src/aegis_nexus/security.py:30-36 | An accepted request can be accepted again by an attempt that takes at most d seconds from check to reservation if and only if its timestamp plus d is not before the second of its reservation. |
| ReplayGuard.StraddlingReplay | src/aegis_nexus/security.py:30-36 | With skew and window 300, a request dated 1000 and accepted at 1001 passes the check at 1300 and is reserved again at 1301. |
| RateLimit.PruneBucket | src/aegis_nexus/security.py:52-54 | Removes the expired instants at the left end of a bucket. |
| RateLimit.TableDecides | src/aegis_nexus/security.py:69-89 | Given a bucket that is exactly its window, the tests on the lazily cleaned table decide as the full log does. |
| RateLimit.AdmitsExactly | src/aegis_nexus/security.py:56-91 | The decision, counted: fewer accepts of the key after the cutoff than the limit, and one of them or fewer than max_keys keys with one. |
| RateLimit.SlidingWindowLimiter.constructor | src/aegis_nexus/security.py:44-49 | The table holds at least 128 keys and starts empty. |
| RateLimit.SlidingWindowLimiter.OwnBucket | src/aegis_nexus/security.py:62-67 | The caller's bucket becomes exactly the accepted instants inside the window; an emptied one leaves the table. |
| RateLimit.SlidingWindowLimiter.Sweep | src/aegis_nexus/security.py:71-81 | Prunes every other bucket and drops exactly those left empty. |
| RateLimit.SlidingWindowLimiter.Allow | src/aegis_nexus/security.py:56-91 | Accepts exactly when a full log of past accepts would (fewer than limit in the window, and a live key or room for one more), logs exactly the accepts, and keeps the table within max_keys with non-empty sorted buckets. |
| RateLimit.NoWindowOverLimit | src/aegis_nexus/security.py:56-91 | Over every run with one limit per key, no window, wherever it ends, holds more accepts of the key than the limit. |
| Base64.PaddedRoundTrip | src/aegis_nexus/pagination.py:34-43 | The lenient decoding loop returns the encoded bytes. |
| Base64.EncodedShape | src/aegis_nexus/pagination.py:34-34 | An encoding comes in groups of four symbols with at most two pads, all at the end. |
| Base64.Alphabet | src/aegis_nexus/pagination.py:34-34 | Table 2 of RFC 4648, written out. |
| Base64.GroupIsBigEndian | src/aegis_nexus/pagination.py:34-34 | Three bytes are one number of 24 bits, written in four symbols to the base 64, most significant first. |
| Base64.Vectors | src/aegis_nexus/pagination.py:34-34 | The test vectors of section 10 of RFC 4648 for one, two and three bytes. |
| Base64.PadsBack | src/aegis_nexus/pagination.py:34-41 | The padding put back by length restores the stripped encoding; a token of n bytes has (4n + 2) / 3 symbols. |
| Base64.RoundTrip | src/aegis_nexus/pagination.py:34-42 | Decoding an unpadded URL-safe token returns the encoded bytes, for every byte string (section 5 of RFC 4648). |
| Pagination.CursorRoundTrip | src/aegis_nexus/pagination.py:23-57 | decode_cursor accepts an encoded cursor if and only if it is within bounds and presented with its own kind and scope, and then returns it unchanged. |
| Pagination.DecodesExactly | src/aegis_nexus/pagination.py:37-57 | Any token is accepted exactly when it has 1 to 1024 characters and decodes to an object of version 1 for this kind and scope, whose position, id and window start are in bounds and parse; they are then taken from it unchanged. |
| Pagination.LongIdRefused | src/aegis_nexus/pagination.py:51-53 | The token of a row whose id is a UUID padded with hyphens to 257 characters is refused by its own listing. |
| Pagination.FieldsRoundTrip | src/aegis_nexus/pagination.py:46-57 | The field checks reject exactly the out-of-bounds fields, and answer scope mismatch exactly for another kind or scope. |
| Pagination.PageShape | src/aegis_nexus/store.py:344-365 | A page is the first bounded-limit rows of the sorted query; more is announced exactly when rows are left, with the last row as the next position. |
| Pagination.PageFacts | src/aegis_nexus/store.py:341-365 | Every matching row behind the cursor is on the page or behind its next position. |
| Ordering.StringLessExactly | src/aegis_nexus/store.py:344-347 | The text order is that of the first differing character, a proper prefix coming first. |
| Ordering.KeyLessExactly | src/aegis_nexus/store.py:241-245 | The order by instant and id is by earlier instant, then by that text order. |
| Pagination.PageIsNewest | src/aegis_nexus/store.py:311-365 | A page holds rows that match, lie in the window and are older than the cursor by (timestamp, id), newest first, every such row it leaves out being older than all of it, as many as the bounded limit or all there are. |
| Pagination.WalkNewestFirst | src/aegis_nexus/store.py:311-364 | A walk over a changing table returns rows newest first by (timestamp, id), each older than its start. |
| Pagination.WalkAscends | src/aegis_nexus/store.py:311-364 | The concatenated pages of a walk over a changing table are in strict (timestamp, id) descending order. |
| Pagination.NoRowTwice | src/aegis_nexus/store.py:311-364 | No row appears twice, even with inserts and deletes between pages. |
| Pagination.NoRowMissed | src/aegis_nexus/store.py:311-364 | A finished walk returns every matching row that is present throughout. |
| Pagination.NoRowInvented | src/aegis_nexus/store.py:311-364 | Every returned row was a matching row of the table at some request. |
| Pagination.WalkIsExact | src/aegis_nexus/store.py:311-364 | A row present and matching throughout a finished walk appears exactly once. |
| Pagination.ConstantTable | src/aegis_nexus/store.py:311-364 | With no changes the concatenated pages equal the one unlimited query, whatever the page sizes. |
| Pagination.WalkEnds | src/aegis_nexus/store.py:351-363 | A walk over an unchanged table with n matching rows is finished after at most n + 1 requests. |
| Pagination.TokenContinues | src/aegis_nexus/store.py:323-330 | The token of a page asks for exactly the following page, within the window of the first page whatever hours a later request names, if and only if the position is within the cursor bounds. |
| Pagination.FollowedExactly | src/aegis_nexus/store.py:311-365 | A client that passes on every next cursor, with any page sizes and over a changing table, gets exactly the rows of the walk over positions if and only if it never continues from a position the cursor codec does not carry; otherwise it gets the walk up to the first such row and an error. |
| Pagination.ReadHistory | src/aegis_nexus/detection_backtest.py:71-86 | The history loop returns at most the bounded number of rows, in order, none missed up to where it stopped, and fails only at a row whose position the cursor codec does not carry. |
| Pagination.HistoryIsPrefix | src/aegis_nexus/detection_backtest.py:71-86 | Over an unchanged table the history is the newest part of the sorted query, all of it when no more is announced. |
| Migrations.VersionsAfterAt | src/aegis_nexus/migrations.py:542-571 | The versions an upgrade commits are consecutive. |
| Migrations.BodyRunsOnce | src/aegis_nexus/migrations.py:542-571 | In an upgraded file each missing body has run once more than before and no other body again. |
| Migrations.StepKeepsInv | src/aegis_nexus/migrations.py:530-570 | Every move of every worker keeps the file, the ledger, the lock and all applied lists in agreement, and never lowers the version. |
| Migrations.EveryRun | src/aegis_nexus/migrations.py:513-574 | For any interleaving of workers, time-outs and rollbacks: bodies run once each and in order, the ledger gains exactly the committed versions, each committed version is in exactly one ascending applied list, a worker that returns leaves a file at least as new as its release, and one whose release is older than the file at the start never returns. |
| Migrations.OneRelease | src/aegis_nexus/migrations.py:513-574 | When all workers run one release, no run passes its latest version and a normal return means exactly that version. |
| Migrations.NobodyFails | src/aegis_nexus/migrations.py:513-574 | With one release, no lock time-out and no failing step, no worker fails. |
| Migrations.VersionOnlyGrows | src/aegis_nexus/migrations.py:513-574 | user_version never goes back along a run. |
| Migrations.EveryMoveCounts | src/aegis_nexus/migrations.py:530-570 | Every effective move uses up a bounded supply, so every run stops. |
| Migrations.NoDeadlock | src/aegis_nexus/migrations.py:530-570 | While some worker has neither returned nor failed, some worker can move without failing. |
| Migrations.Connection.RunStep | src/aegis_nexus/migrations.py:533-568 | One transaction: nothing when the version is reached already, all three writes when it commits, and the old file when it fails. |
| Migrations.Connection.RunSteps | src/aegis_nexus/migrations.py:530-570 | The loop over the steps applies all of them if and only if every transaction gets the lock and finds its step done by others or commits it; else the first that does not decides: a lock time-out, or the failing step with its version. |
| Migrations.Connection.ApplyMigrations | src/aegis_nexus/migrations.py:513-574 | With other workers committing between transactions: the versions gained are split between the result list and the others, each ending, lock time-out and failing step included, comes exactly under its condition, and a normal return means the latest version is reached. |
| RelationGraph.ReachBothWays | src/aegis_nexus/static/app.js:1044-1049 | When every edge joins two nodes of the graph, the search sees an undirected graph. |
| RelationGraph.PathIsReach | src/aegis_nexus/static/app.js:1068-1079 | A node list joined by its recorded edges witnesses reachability in as many hops as it has edges. |
| RelationGraph.ReachIsPath | src/aegis_nexus/static/app.js:1068-1079 | Reachability in k hops always has such a list with k edges. |
| RelationGraph.BuildAdjacency | src/aegis_nexus/static/app.js:1044-1049 | The adjacency lists hold exactly the hops of the edges, for nodes of the graph only. |
| RelationGraph.EdgeKeyExactly | src/aegis_nexus/static/app.js:1004-1007 | An edge key names the two ends in text order and the relation, whichever way the edge points. |
| RelationGraph.NothingMissed | src/aegis_nexus/static/app.js:1051-1060 | Throughout the search nothing nearer than the head of the queue is missing from the parent map. |
| RelationGraph.Search | src/aegis_nexus/static/app.js:1051-1060 | The queue loop finds the target exactly when it is reachable, at its least hop count. |
| RelationGraph.PathBack | src/aegis_nexus/static/app.js:1068-1077 | Following the parent map back gives a path of that hop count with the recorded edges. |
| RelationGraph.RelationState.FindGraphPath | src/aegis_nexus/static/app.js:1037-1083 | Reports no path exactly when the target is unreachable in the scoped graph and clears the old one; otherwise stores a shortest path whose consecutive nodes are joined by the recorded edges. |
| RelationGraph.Distances | src/aegis_nexus/static/app.js:1124-1136 | The depth-limited queue loop reaches exactly the nodes at most maxDepth hops away. |
| RelationGraph.SessionRoot | src/aegis_nexus/static/app.js:1116-1116 | The root is the first session node of the list, and is missing only when there is none. |
| RelationGraph.DepthScopeKeeps | src/aegis_nexus/static/app.js:1113-1141 | The depth filter keeps exactly the nodes at distance at most maxDepth from the session root. |
| RelationGraph.GraphScope | src/aegis_nexus/static/app.js:1103-1152 | The three filters are the evidence, depth and kind restrictions in that order, and drop every edge with a dropped endpoint. |
| RelationGraph.ScopeExactly | src/aegis_nexus/static/app.js:1103-1152 | A node is kept exactly when its id passes evidence, depth and kind in turn, an edge exactly when both ends do. |
| RelationGraph.NodesInOrder | src/aegis_nexus/static/app.js:1103-1152 | Filtering keeps the order of the nodes. |
| RelationGraph.EdgesInOrder | src/aegis_nexus/static/app.js:1103-1152 | Filtering keeps the order of the edges. |
| RelationGraph.ScopeIsPart | src/aegis_nexus/static/app.js:1103-1152 | Scoping invents no node or edge and never leaves a dangling edge in a graph without one. |
| RelationGraph.ScopedPathIsPath | src/aegis_nexus/static/app.js:1037-1083 | A path shown in a scope is a path of the whole graph. |
| Normalizer.ResultWithinLimits | src/aegis_nexus/model.py:56-105 | Every accepted value respects the string, collection and depth limits, has safe text keys and no non-finite number. |
| Normalizer.FixedPoints | src/aegis_nexus/model.py:56-105 | A value is returned unchanged if and only if it is within every limit, and then nothing is noted. |
| Normalizer.Idempotent | src/aegis_nexus/model.py:56-105 | Normalising twice is normalising once, and the second pass notes nothing. |
| Normalizer.ChangedExactly | src/aegis_nexus/model.py:56-105 | An accepted value comes back changed if and only if something was noted or a dictionary key is no text. |
| Normalizer.SilentRename | src/aegis_nexus/model.py:90-99 | A numeric key becomes text without any note. |
| Normalizer.PathsListed | src/aegis_nexus/model.py:46-53 | The listed paths of a loss are real, distinct, at most 64, and complete when there are fewer. |
| Normalizer.LossyExactly | src/aegis_nexus/model.py:108-138 | For values with text keys the lossy flag is set exactly when normalisation changed a part of the event; redaction alone does not set it. |
| Normalizer.NormalizeEvent | src/aegis_nexus/model.py:261-343 | An event with a misshapen field is refused first; otherwise its four parts are bounded in order, the first refused part decides the error, and the summary flags redaction exactly, loss exactly when a part was changed (for text keys), and lists for each kind of loss its paths, all of them or 64. |
| Normalizer.NormalisedParts | src/aegis_nexus/model.py:261-300 | The parts are the redacted observed fields, enrichment, derived and hypotheses, a missing one empty, each under the path of its name; the values returned are what is left of them, and the first field of the wrong type is the one refused. |
| Normalizer.Audit.RecordAudit | src/aegis_nexus/model.py:46-53 | Counts the note and lists its path unless it is listed already or 64 are. |
| Normalizer.Audit.NormalizationSummary | src/aegis_nexus/model.py:108-138 | Each flag is set exactly when a note of its kinds was recorded; counts and path lists are those of the recorded notes. |
| Normalizer.Normalise | src/aegis_nexus/model.py:56-105 | The recursion returns what is left of the value or the first cause of a refusal, and leaves exactly the notes of the value, in order, behind the earlier ones. |
| Normalizer.BoundedExactly | src/aegis_nexus/model.py:56-105 | A text keeps its first 4096 characters, a value of another type those of its text, a list its first 128 items, a dictionary the safe keys of its first 128 entries at their first occurrence with their last value, each part treated alike; an error is raised exactly when something looked at lies more than six levels deep or is no finite number, and names the first such cause. |
| Normalizer.NotesExactly | src/aegis_nexus/model.py:46-105 | Each kind of loss is noted exactly at the paths of the values that are cut, coerced or lose a key. |
| Normalizer.SafeKeyCodes | src/aegis_nexus/model.py:23-23 | A safe key has 1 to 96 letters, digits, underscores, full stops, colons and hyphens of ASCII. |
| Normalizer.NormaliseList | src/aegis_nexus/model.py:77-84 | The loop over the first 128 items, each at its own path. |
| Normalizer.NormaliseDict | src/aegis_nexus/model.py:85-100 | The loop over the first 128 entries, dropping unsafe keys with a note and without looking at their values. |
| Stix.EscapeRoundTrip | src/aegis_nexus/cti_stix.py:30-31 | Unescaping the escaped form returns the string, for every string. |
| Stix.EscapedSplit | src/aegis_nexus/cti_stix.py:30-31 | Replacing backslashes before quotes escapes each character once. |
| Stix.Unescape | src/aegis_nexus/cti_stix.py:120-133 | The index loop agrees with the recursive unescaping and raises on every other escape. |
| Stix.ContentIsQuotesEscaped | src/aegis_nexus/cti_stix.py:115-117 | The value group of the two regular expressions matches exactly the texts in which every quote directly follows a backslash. |
| Stix.RawQuoteAccepted | src/aegis_nexus/cti_stix.py:115-133 | An escaped backslash followed by a raw quote is accepted and read, though no escaping writes it. |
| Stix.EscapedExactly | src/aegis_nexus/cti_stix.py:30-133 | A text that can be unescaped is the escaped form of its value if and only if a scan over escape pairs meets no raw quote. |
| Stix.PatternRoundTrip | src/aegis_nexus/cti_stix.py:34-51 | Every pattern the exporter produces is matched by the importer and read back to its kind and value. |
| Stix.PatternTexts | src/aegis_nexus/cti_stix.py:34-51 | Every kind has its own pattern text around the escaped value, addresses by their version, and any other kind is refused. |
| Stix.Firsts | src/aegis_nexus/cti_stix.py:67-78 | First occurrences of supported type and value pairs, in order and complete. |
| Stix.SupportedExactly | src/aegis_nexus/cti_stix.py:67-78 | An item is exported if its value is not empty and its lower-cased type is a domain, URL or hash kind, or an address that parses. |
| Stix.KeptExactly | src/aegis_nexus/cti_stix.py:79-108 | Field by field: the confidence within 0 to 100, the stripped description cut to 512 characters, the normalised start, the end only when it comes after the start, and the cleaned first 16 labels when any is left. |
| Stix.LabelsOneByOne | src/aegis_nexus/cti_stix.py:99-103 | Labels pass one by one in order, blank ones dropped, others cut to 128 characters. |
| Stix.ReadExactly | src/aegis_nexus/cti_stix.py:148-172 | An object is read exactly when it is an indicator with pattern type stix or none and its pattern is one of the seven openings, a text in which every quote follows a backslash, and the closing. |
| Stix.ExportBundle | src/aegis_nexus/cti_stix.py:54-112 | The loop with its seen set writes one object for each first occurrence, in order, behind the marking definitions. |
| Stix.ImportBundle | src/aegis_nexus/cti_stix.py:136-189 | Rejects what is no bundle, has no object list or too many objects, fails on the first unsupported escape, and otherwise returns every recognised indicator in order. |
| Stix.ReadBack | src/aegis_nexus/cti_stix.py:54-189 | An exported object is imported with its kind, value, labels, confidence, description and validity dates. |
| Stix.BundleRoundTrip | src/aegis_nexus/cti_stix.py:54-189 | Reading an exported bundle gives the supported items in order, first occurrences only. |
| Stix.ExportThenImport | src/aegis_nexus/cti_stix.py:54-189 | Export followed by import gives exactly those items, or too_many_stix_objects exactly when the bundle exceeds the import limit. |
| Stix.PairsComeOnce | src/aegis_nexus/cti_stix.py:67-78 | Every supported type and value comes through exactly once. |

## Left out

- RateLimit.SlidingWindowLimiter.Allow: one window per limiter, because cleanup prunes every bucket with the caller's cutoff; different windows for different keys are not modelled.
- SequenceProtocol.GapAccounting: says nothing about a stream after its eviction; the collector then starts a new account under the old id.
- SequenceRuns.OrderIndependent: assumes that the received numbers never make more than 256 runs; beyond that the answers do depend on the order.
- Sessions.SessionsAreMaximalRuns: the identity is new to the table and its own events are in order and carry no token; a late event or a token of its own may open, join or be refused by another session.
- Store.Store.Ingest: when maintenance empties the chain the next record links to the stored head, and `verify_chain` reports a head mismatch meanwhile; the contract then only says that the chain is empty.
- Store.Store.Maintain: case retention and the WAL checkpoint are not modelled.
- Store.Store.IngestTransaction: the stored JSON texts are taken as given beside the observed fields they render; the sequence field is one of those.
- Store.IngestKeepsSpans: after pruning a session row keeps its old span and count, so equality holds only without pruning.
- EventChain.HeadCommitsToChain: speaks of prev_hash as the text that is hashed, in which a NULL reads "None".
- Correlation.EventsToldApart: which texts are addresses is a parameter, and rivals are not held to the 4096 characters of a string; for hashed texts longer than that (see RivalsFit) the condition is sufficient but may not be necessary.
- Correlation.TokensToldApart: the same two points.
- Lone surrogates, which the hashing of session ids replaces, are not modelled: a text consists of Unicode scalar values.
- ReplayGuard.AcceptedAtMostOnce: the time a later attempt spends between check and reservation is a parameter, because the code does not bound it.
- Pagination.WalkEnds: needs an unchanged table, since rows that keep arriving behind the cursor can prolong a walk.
- Pagination.ReadHistory: the detection pass over the rows is left out; rows are their (timestamp, id) positions.
- Normalizer.Normalise: always has an audit; after an error the contract says only that earlier notes are kept.
- Normalizer.LossyExactly: equality is of the values as written, with entries in insertion order; Python's `True == 1` is not used.
- Normalizer.NormalizeEvent: the redaction of credentials is a parameter, and the later checks of enrichment, derived fields, addresses, ports and ids are not modelled.
- Migrations.Connection.ApplyMigrations: the backup and the migration bodies are one outcome that commits or fails; a crash counts as a rollback.
- Stix.ReadBack: object ids and names are not modelled, a confidence is an integer, not a boolean, and the timestamp normaliser is a parameter.
- RelationGraph.GraphScope: the depth selector is "all" or a natural number, as the page offers.
- SQLite itself, DDL, WAL and file system calls; the foreign key, unique index and primary key are modelled where code depends on them.
- datetime parsing and formatting; `_utc_iso` text sorts as instants do.
- The columns of events that are not hashed, and the decoding of rows for display.
- Listing of sessions by page: the same clause as for events, but a session's last_seen moves during a walk.
- The order of summary entries: NOCASE collation only permutes whole sensors.
- HMAC and the form checks of signed requests, which do not depend on the clock, are two booleans of a request.
- Threads and locks: a method under a lock is one atomic step.
- Flask routes, sockets, protocol decoys, threat feeds, reports, GeoIP and all rendering.

# voltkv: a verified model

A Dafny model of voltkv, a small Redis-like server: an in-memory keyspace of strings, hashes
and lists with expiry, a command executor that mirrors writes to an append-only log, the RESP
frames that log is made of, its replay and compaction, and a publish/subscribe broker.
`dafny verify dfyconfig.toml` checks the whole project.

## How it is built

The centre is durability. A client's command changes the store and sends records to a queue; a
single goroutine encodes them into a buffered file; a crash keeps some byte prefix of what was
encoded; a restart decodes what it can and executes it again. The theorems say what that is
worth, and they compose:

1. **Frames** (`Decimal`, `Framing`, `Resp`, `RespReader`). The wire format, its round trip and
   the torn-tail theorem; the byte-by-byte reader is a class proved against the format, which
   is the Redis serialization protocol specification (RESP2), sections "Bulk strings",
   "Arrays" and "Sending commands to a Redis server", with its inline commands.
2. **One command** (`Keyspace`, `Commands`, `SetOptions`, `Words`). A flat map with exact expiry,
   every operation on one key, what a request is, what it does and which records it logs; and
   laws that fix those definitions from outside, on the words a client sends and on what it
   reads back (`ClientRuns`): texts grow at their end (`Strings`), what is given a lifetime lives
   exactly as long (`Lifetimes`), fields hold what was last written (`Hashes`), lists are deques
   (`Deques`), counters add up (`Counters`), several keys are handled one by one
   (`SeveralKeys`), and reads and refusals leave everything alone (`SideEffects`).
3. **The log's meaning** (`Simulation`, `LogFilter`, `History`, `Voltkv`). A replayed keyspace
   *mirrors* the live one when keys, kinds and values agree and each expiry is absent or the
   live one moved by an allowed shift. Over a run the shift is known key by key: it is how far
   the record that last set the key's deadline moved between the run and the replay. Every
   command keeps that relation, and the records of a command lead to what it did. The theory
   of runs and replays is stated for any executor that keeps four laws; `Voltkv` proves them
   for this one.
4. **The pipe and the crash** (`Pipeline`, `Sessions`, `CrashRecovery`, `Recovery`). Queue,
   in-flight command, write buffer and file as a state machine; then the whole server, with
   compactions, stopped after any step. A log is replayed through one connection, whose
   subscribe mode turns commands away; `Sessions` says which records are heard. A shift is again
   that of the record that last set the deadline, with the rounding of a compaction if it comes
   from one; `Lifetimes` keeps deadlines near enough for that rounding to stay below 1 ms.
5. **Compaction** (`Compaction`, `CompactionProof`, `Rewriting`), and what is appended while it
   goes on (`CompactionRace`).
6. **The real structures** (`ShardedStore`, `Refinement`, `Handlers`, `AofLog`, `Executor`,
   `Restart`). Classes with shards, dead entries still in place, loops and buffers; each method
   is proved to do what the flat definitions say, up to a life of the server: serve, stop, read
   the file back into another store.
7. **Beside the log**: the glob matcher against the language of its pattern (`Glob`),
   interleaved lazy deletion and sweeping (`Maintenance`), the broker as steps and as classes
   (`PubSubSteps`, `Broker`, over `Channels`), and what a torn log costs a restarted server
   (`TornRestart`).

The clock is a parameter: nanoseconds as an integer, one reading per operation. Strings stand
for byte strings. Map iteration orders, shard counts and the hash function are arbitrary.
Durations are int64 and wrap around where the code multiplies them; the remaining time
saturates as `time.Until` does.

## Where the code decides

- A successful INCR, DECR, INCRBY or DECRBY keeps the key's expiry in the store and logs a plain
  SET, so a replay drops it. `LogIsExact` says that this is the only command whose records are
  not exact, and `IncrementDropsExpiry` exhibits it. The replay relation therefore lets the
  replayed side lack an expiry.
- The comment above `snapshotCommands` speaks of a PEXPIREAT-style command; the code emits a
  relative PEXPIRE in whole milliseconds, and none below one millisecond. `CompactedDeadline`
  gives the exact condition.
- The comment in `Rewrite` says that no append is lost. A record appended after `SnapshotAll`
  reaches the new log if it has not been printed at the swap; one printed before is lost
  (`LateRecordIsLost`). All of them survive if and only if the writer has printed none
  (`LateRecordsSurvive`). A record still queued at the snapshot is in it already and is replayed
  a second time (`QueuedRecordIsReplayedTwice`). With an empty queue at the snapshot and an idle
  writer until the swap the new log restores the keyspace (`CompactionUnderLoad`). The crash
  theorems compact when nothing is on its way.
- Operations read the clock before they take the lock. One that comes with a reading at or
  before the deadline of a key which a sweep or a lazy delete has taken away sees the difference
  (`LateExistsMissesKey`, `LateIncrementRevivesKey`); every other does not
  (`MaintenanceIsInvisible`, `StaleReadingSeesMaintenance`).
- `TTL` reads the clock a second time for the remaining time, which may then be negative
  (`TTLCodeLate`).
- Expiry is not logged. Where a deadline passes during the run but not during the replay, they
  part (`PassedDeadlineIsNotReplayed`).
- A lifetime of more than an int64 of nanoseconds wraps around: SET k v EX 9223372037 lives for
  good (`SetLives`, `TooLongIsForGood`).
- DECRBY negates its argument, which for the least int64 wraps around to itself
  (`DecrByIsExact`, `DecrByLeastGoesDown`).
- A log is replayed through one connection. A SUBSCRIBE in it, which the server itself never
  logs, puts that connection into subscribe mode, and every later record is turned away
  (`SubscribeSilencesTheLog`). The crash theorems ask that the log a server starts on leaves
  the connection outside subscribe mode; `SetSurvivesRestart` shows that nothing less will do.
- `Open` appends after a torn tail. If the tear is in a line that announces a count or a
  length, the next replay stops there (`AppendsAfterTearAreLost`); if it is in the body of an
  argument, the replay fills it up with what was appended (`TornBodyReadsOn`,
  `TornBodySwallows`). The crash theorems start from a log that was whole.

## Model

| member | source | states |
|---|---|---|
| `Resp.TornTail` | internal/aof/aof.go:129-153 | for every command list and every byte prefix of its encoding, the replay loop delivers exactly the commands whose frames lie wholly inside the prefix, none partial or altered, and stops |
| `Resp.WholeFramesMeaning` | internal/aof/aof.go:119-153 | the count used by TornTail is the right one: frame k is the first that does not end inside the prefix |
| `Resp.RoundTrip` | internal/aof/aof.go:119-124 | decoding the concatenated frames of any non-empty commands with arbitrary bytes in them returns those commands and nothing else |
| `Resp.ReadEncoded` | internal/resp/resp.go:27-77 | one frame followed by anything decodes to its command and leaves exactly what followed |
| `Resp.ReadTorn` | internal/resp/resp.go:46-97 | a frame cut anywhere, even inside its last line end, is an error and never a shorter command |
| `Resp.InlineWords` | internal/resp/resp.go:99-116 | for every line: words are what the splitter returns if and only if they are non-blank and make up the line with gaps of blanks that are empty at most at its ends |
| `Decimal.ParseFormat` | internal/store/helpers.go:20-27 | printing then parsing is the identity on every int64 |
| `Decimal.NumbersAreRead` | internal/store/helpers.go:20-27 | a text is read as a number if and only if it is a row of digits with at most one sign before it whose place value lies in int64, and as that |
| `Decimal.WrapIsCongruent` | internal/command/command.go:397-410 | a product of int64s keeps its low sixty-four bits |
| `Decimal.FormatIsTheOne` | internal/store/helpers.go:20-27 | a number is printed as the one plain text that reads as it: no leading zero, no plus, a minus only before what is not zero |
| `Resp.LineEndsStripped` | internal/resp/resp.go:79-89 | a line is what stands before the carriage returns and newlines at its end |
| `Resp.NoArgumentsRead` | internal/resp/resp.go:46-53 | a count that is not positive is an empty command, which the replay passes over |
| `Resp.NegativeLengthPanics` | internal/resp/resp.go:55-67 | a negative length is neither a body nor a read error: making the buffer panics |
| `Resp.OnTheWire` | internal/aof/aof.go:119-124 | the frame of a command byte by byte, on an example |
| `RespReader.Reader.ReadByte` | internal/resp/resp.go:27-31 | takes exactly the next byte of the stream |
| `RespReader.Reader.ReadLine` | internal/resp/resp.go:79-89 | consumes through the newline and returns the line without its trailing line ends, as the format says |
| `RespReader.Reader.ReadInt` | internal/resp/resp.go:91-97 | a line that is not an int64 is an error |
| `RespReader.Reader.ReadBulk` | internal/resp/resp.go:55-75 | one bulk string of the declared length and its line end |
| `RespReader.Reader.ReadElements` | internal/resp/resp.go:54-77 | the element loop agrees with the recursive format, value and unread bytes alike |
| `RespReader.Reader.ReadArray` | internal/resp/resp.go:46-77 | a non-positive count is an empty command, otherwise that many bulk strings |
| `RespReader.Reader.ReadCommand` | internal/resp/resp.go:27-44 | the byte-by-byte reader decodes exactly what the format specifies and stops where it says |
| `RespReader.SplitInline` | internal/resp/resp.go:99-116 | the splitting loop returns the words that InlineWords characterises |
| `Keyspace.LivePut` | internal/store/store.go:99-105 | dropping dead entries commutes with a write at one key: the fact behind lazy expiry |
| `Keyspace.StepWellFormed` | internal/store/store.go:405-646 | every operation keeps payloads matching their kind and hashes and lists non-empty |
| `Keyspace.RefusedChangesNothing` | internal/store/store.go:192-268 | an operation that answers an error leaves the live keyspace as it was |
| `Keyspace.StepElsewhere` | internal/store/store.go:111-335 | an operation on one key leaves every other live key alone |
| `Commands.SetOptsExclusive` | internal/command/helpers.go:18-55 | accepted SET options never combine NX with XX |
| `Commands.PlainSetParses` | internal/command/command.go:258-272 | a logged plain SET reads back as that unconditional assignment without expiry |
| `Words.CalledBy` | internal/command/command.go:60-64 | a command is read by its first word, whatever the case of each letter |
| `Words.KnownIsWord` | internal/command/command.go:88-199 | and only the words of the dispatch table are read as commands |
| `Words.FoldingSpells` | internal/command/command.go:64 | folding makes a word of a text exactly when the text spells it, letter by letter, in either case |
| `SideEffects.ReadsLeaveAll` | internal/command/command.go:244-256 | GET, MGET, EXISTS, TYPE, TTL, PTTL, HGET, LINDEX and LRANGE, in any case and with any arguments, change and log nothing |
| `SideEffects.RefusalsLeaveAll` | internal/command/command.go:215-562 | whatever is refused, for its arguments or for what it meets, changes and logs nothing |
| `SideEffects.ArityDecides` | internal/command/command.go:215-631 | each command is refused for its number of arguments exactly when it may not have so many |
| `SideEffects.NumbersDecide` | internal/command/command.go:298-410 | and for a number exactly when an argument that should be one is none |
| `SideEffects.OtherKindsRefused` | internal/store/store.go:160-714 | a command on a live key of another kind is refused for that and leaves all as it was |
| `SideEffects.RemovalsLogChanges` | internal/command/command.go:361-586 | DEL, HDEL, LPOP, RPOP and PERSIST are logged if and only if they changed something |
| `SideEffects.OthersLeaveAll` | internal/command/command.go:194-199 | a command called by none of the words does nothing to the keyspace |
| `SideEffects.FreeCommands` | internal/command/command.go:215-242 | the only commands that set deadlines are SET with EX or PX, EXPIRE and PEXPIRE: what the deadline-free theorems ask of a run |
| `ClientRuns.GetShows` | internal/command/command.go:244-256 | GET, in any case, answers the live string at the key, nothing, or a refusal of another kind |
| `ClientRuns.TTLShows` | internal/command/command.go:412-427 | TTL and PTTL, in any case, answer the whole seconds and milliseconds that remain, -2 without a live key and -1 without a deadline |
| `Strings.ClientAppends` | internal/store/store.go:192-206 | any run of APPENDs on a missing key or a string that does not expire meanwhile: the text is what it was followed by the suffixes in order, each answer is the length so far, the deadline is kept |
| `Strings.AppendedShows` | internal/store/store.go:160-206 | and GET answers that text as long as it is live |
| `Strings.SetStays` | internal/command/command.go:215-242 | SET without a lifetime stores for good, with NX only where nothing is live, with XX only where something is; otherwise it answers no, changes and logs nothing |
| `Strings.SetRefusesSyntax` | internal/command/helpers.go:18-55 | SET is refused for its options exactly when they are not in the grammar |
| `Strings.GetSetSwaps` | internal/store/store.go:209-223 | GETSET answers the text before it and stores the new one for good; what is no string it leaves alone |
| `Strings.PersistStays` | internal/store/store.go:323-335 | PERSIST answers whether there was a deadline, and the key then holds what it held at every later instant |
| `Strings.TypeShows` | internal/store/store.go:294-304 | TYPE answers the kind of what is live at the key |
| `Lifetimes.LifetimeLasts` | internal/store/store.go:111-155 | a value stored by Set, SetNX or SetXX with a lifetime is live up to the instant at which it is over and not after, and the time that remains is what remains of it |
| `Lifetimes.NoLifetimeStays` | internal/store/store.go:111-155 | a value stored without one stays |
| `Lifetimes.SetLives` | internal/command/helpers.go:18-55 | SET k v EX n lives n seconds and PX n milliseconds, with its other options in any order: GET answers the value up to that instant and nothing after it, PTTL the milliseconds up to it; more than an int64 of nanoseconds wraps around, and what is then not positive is no lifetime at all |
| `Lifetimes.TooLongIsForGood` | internal/command/helpers.go:18-55 | the failing input: SET k v EX 9223372037 never expires |
| `Lifetimes.SecondsAreMilliseconds` | internal/command/helpers.go:18-55 | EX n and PX 1000n are the same lifetime |
| `Lifetimes.ExpireLives` | internal/command/command.go:397-410 | EXPIRE and PEXPIRE answer whether the key is live and are logged only then; if so it keeps what it holds and lives up to the instant they say, at once no longer if that lies behind; an amount that does not fit wraps around |
| `Lifetimes.ExpireIsPExpire` | internal/command/command.go:397-410 | EXPIRE k n does and answers what PEXPIRE k 1000n does |
| `Hashes.HashCommand` | internal/store/store.go:405-471 | HSET gives each named field the value of the last pair that names it and answers how many are new, HDEL takes the named fields away and answers how many there were, and no other field changes |
| `Hashes.LastWriteIsLast` | internal/store/store.go:421-423 | what is meant by the last: a write is found exactly if one names the field, and it is the last that does |
| `Hashes.ClientHash` | internal/store/store.go:405-471 | any run of HSET and HDEL on a missing key or a hash that does not expire meanwhile leaves in every field what was last written to it |
| `Hashes.HashShows` | internal/store/store.go:428-442 | and HGET answers it |
| `Hashes.HGetShows` | internal/store/store.go:428-442 | HGET answers one field of a live hash, nothing, or a refusal |
| `SeveralKeys.MGetShows` | internal/command/command.go:329-345 | MGET answers key by key what GET answers, and nothing where GET refuses |
| `SeveralKeys.MSetShows` | internal/command/command.go:347-357 | after MSET each named key holds the last value given for it, for good, and every other key what it held; each pair is logged as a plain SET, in order |
| `SeveralKeys.DelShows` | internal/command/command.go:361-375 | DEL takes the named keys away and no others, answers how many of them were live, and logs itself if there was one |
| `SeveralKeys.ExistsShows` | internal/command/command.go:377-388 | EXISTS counts the positions at which a live key is named |
| `SeveralKeys.FlushShows` | internal/command/command.go:145-148 | FLUSHDB leaves nothing and is always logged |
| `Simulation.ExecRespects` | internal/command/command.go:63-199 | a command run on two mirrored keyspaces at two clocks keeps them mirrored: same keys, kinds and values; a deadline it sets is off by exactly the distance of the clocks, the others as before |
| `LogFilter.LogExplainsCommand` | internal/command/command.go:215-562 | log filter: the records of any command, executed one by one where it ran, lead to what it left up to expiries lost; a command that appends nothing changed nothing |
| `LogFilter.SilentUnchanged` | internal/command/command.go:480-492 | a single-key command that logs nothing leaves the live keyspace untouched; silent HDEL needs non-empty hashes |
| `LogFilter.LogIsExact` | internal/command/command.go:323-325 | the records rebuild exactly what the command left if and only if it is not an increment, within range, of a key that holds an integer string and has an expiry |
| `LogFilter.IncrementDropsExpiry` | internal/command/command.go:323-325 | the failing input: INCR of a key with an expiry, whose record loses it |
| `History.ReplayMirrors` | internal/aof/aof.go:129-153 | replaying the records of a chain with any clock in which no deadline passes gives its last keyspace, each expiry absent or moved exactly as far as the record that last set it |
| `History.NoSlowerIsQuiet` | internal/aof/aof.go:129-153 | a replay no slower than the original run lets no deadline pass |
| `History.ReplayIsExact` | internal/aof/aof.go:129-153 | where no point has an expiry the replay is exact at any clock |
| `History.ClocksAgree` | internal/aof/aof.go:129-153 | a replay in which no deadline passes agrees with the one at a single instant, each expiry moved exactly as far as the record that last set it |
| `Voltkv.VoltkvLawful` | internal/command/command.go:63-207 | the executor satisfies the four laws the log theory needs, for every keyspace, command and instant |
| `Voltkv.RunWellFormed` | internal/command/command.go:63-199 | type and shape invariant in every state reachable through Execute, whatever the clock did |
| `Voltkv.ReplaySimulatesRun` | internal/command/command.go:203-207 | over any serial run in which no deadline passes, and at every record of its log, the replayed keyspace mirrors the live one as it stood then, each expiry absent or moved exactly as far as the record that last set it |
| `Voltkv.FastReplaySimulatesRun` | internal/aof/aof.go:129-153 | the same, with the same exact shift for each key, and with no condition on the replayed deadlines when the replay is no slower than the run |
| `Voltkv.PassedDeadlineIsNotReplayed` | internal/aof/aof.go:129-153 | the failing input the hypothesis excludes: SET k v PX 1, and SET k w NX 2 ms later, replayed at one instant; the live store holds w, the replay v |
| `Voltkv.TtlFreeReplayIsExact` | internal/aof/aof.go:129-153 | a serial run that sets no deadline is rebuilt exactly by its log, record by record, at any clock |
| `Compaction.CompactionRebuilds` | internal/aof/aof.go:159-230 | replaying the commands of a snapshot, walked in any key and field order, gives every key back with its payload and a known deadline |
| `Compaction.CompactionPreserves` | internal/aof/aof.go:159-230 | compaction keeps the dataset, each deadline moved by the time passed and its own rounding alone, and exactly when there are none |
| `Compaction.CompactedDeadline` | internal/aof/helpers.go:6-12 | a key keeps an expiry if and only if at least 1 ms remains; the kept one is never later and less than 1 ms earlier |
| `Compaction.RoundingUnderOneMs` | internal/aof/helpers.go:6-12 | where every remaining time fits in a duration the rounding of a compaction is less than 1 ms, downwards |
| `Lifetimes.ExecNear` | internal/command/command.go:215-242 | no command leaves a deadline further ahead than a duration can say, whatever its arguments multiply to: what RoundingUnderOneMs asks for |
| `CompactionProof.VoltkvRestoresSnaps` | internal/aof/aof.go:203-230 | the commands emitted for one key recreate it wherever it is absent |
| `CompactionProof.CompactionCanLoseExpiry` | internal/aof/aof.go:223-228 | the failing input of the bound: less than 1 ms left and the key comes back permanent |
| `Rewriting.CompactLog` | internal/store/store.go:750-776 | snapshot of the sharded store plus rewrite, with anything still queued: the new file replays, at any instant and through one connection, to the live keyspace as snapshotted; the whole new log, whose queued records are already in the snapshot, restores what those records make of that keyspace when they are replayed on top of it, so that keyspace itself when the queue is empty |
| `CompactionRace.LateRecordsSurvive` | internal/aof/aof.go:155-199 | the promise that no appends are lost: in every interleaving of appends and writer between snapshot and swap, the new log is the commands of the snapshot followed by what still waits, and the records appended since the snapshot are all among it if and only if the writer has printed none of them |
| `CompactionRace.CompactionUnderLoad` | internal/aof/aof.go:159-199 | if nothing was under way at the snapshot and the writer printed nothing before the swap, the new log restores the keyspace as it stands after everything executed since, each expiry absent or moved as far as the record that last set it, with a rounding under 1 ms if that is a compacted one |
| `CrashRecovery.LeadsFurther` | internal/command/command.go:203-207 | any command executed next, with no deadline passing, extends the records that lead from the snapshot to the present keyspace: what CompactionUnderLoad asks of them always holds of a serial run |
| `CompactionRace.CompactionUnderLoadExact` | internal/aof/aof.go:159-199 | the same without deadlines: exactly that keyspace, at any clock |
| `CompactionRace.LateRecordIsLost` | internal/aof/aof.go:155-199 | the failing input of the promise: a SET appended after the snapshot and printed before the swap is neither in the new file nor in the queue |
| `CompactionRace.QueuedRecordIsReplayedTwice` | internal/aof/aof.go:159-199 | the opposite failure: an RPUSH still queued at the snapshot is in it already and is replayed a second time |
| `Pipeline.WriterConserves` | internal/aof/aof.go:61-100 | in every interleaving of appending connections and the writer: file, buffer, in-flight and queued commands encode the log in order, each connection's program order is kept, the queue stays within 1024, and the file holds everything once the writer has exited after Close |
| `Pipeline.FileDelivers` | internal/aof/aof.go:61-77 | whatever has reached the file delivers a prefix of the log, all of it once drained |
| `CrashRecovery.NextKeepsInv` | internal/aof/aof.go:61-87 | every step of server, log and writer keeps the invariant that each log prefix restores the keyspace it was appended at |
| `CrashRecovery.BaseSurvives` | internal/aof/aof.go:129-153 | a crash never loses records that were whole in the file at the start or at the last compaction |
| `Recovery.CrashRecovers` | internal/aof/aof.go:129-153 | crash recovery: start on a whole log whose replay ends outside subscribe mode; after any run without passing deadlines, with compactions, stopped after any step, the file delivers the first k records and replaying them through one connection gives the keyspace as it stood when the k-th was appended, each expiry absent or moved as far as the record that last set it, with the rounding of a compaction if that record comes from one; if the clock never goes back that rounding is downwards and less than 1 ms |
| `Recovery.CrashRecoversExactly` | internal/aof/aof.go:129-153 | if no command sets a deadline, the replay of the crashed file equals that keyspace exactly, at any clock, and the last one if nothing was on its way |
| `CrashRecovery.RunKeepsSmall` | internal/aof/aof.go:203-230 | in every run whose clock never goes back, however often the log is compacted, the deadline a record carries is never later than it was and less than 1 ms earlier |
| `CrashRecovery.RunStampsExact` | internal/aof/aof.go:129-153 | without compactions no record carries a deadline that is off |
| `Recovery.SetSurvivesRestart` | internal/server/server.go:148-156 | a SET appended to a deadline-free log survives the next restart if and only if the log before it ends outside subscribe mode, or the SET changed nothing |
| `Recovery.AppendsInSubscribeModeAreLost` | internal/command/command.go:70-80 | whatever is appended to a log that ends in subscribe mode is turned away when the log is replayed |
| `Recovery.SubscribeSilencesTheLog` | internal/server/server.go:148-156 | the failing input: a SET after a SUBSCRIBE never takes effect when the log is replayed |
| `Sessions.HeldChannels` | internal/command/command.go:635-679 | after any commands a connection holds a channel if and only if some SUBSCRIBE named it and no later UNSUBSCRIBE named it or named nothing |
| `Sessions.HeardExactly` | internal/command/command.go:70-80 | so a command is heard if and only if no channel is held when it comes |
| `Sessions.AllowedWords` | internal/command/command.go:70-80 | in subscribe mode SUBSCRIBE, UNSUBSCRIBE, PING and QUIT are let through and nothing else |
| `Sessions.PlainHeard` | internal/server/server.go:148-156 | outside subscribe mode records that are neither SUBSCRIBE nor UNSUBSCRIBE are heard as they are and leave the mode so |
| `Sessions.PlainUnheard` | internal/command/command.go:70-80 | in subscribe mode none of them is heard |
| `Recovery.VoltkvDurable` | internal/command/command.go:203-207 | voltkv satisfies every law the crash theorems ask for: its records fit in memory, and no command, nor a compaction, ever logs a SUBSCRIBE or UNSUBSCRIBE |
| `TornRestart.AppendsAfterTearAreLost` | internal/aof/aof.go:41-56 | the failing case the theorems exclude: after whole frames and a frame torn anywhere but in the body of an argument or its line end, the whole frames are delivered and nothing appended later ever is |
| `TornRestart.TornBodyReadsOn` | internal/resp/resp.go:55-75 | a frame torn in the body of an argument or its line end: replay takes the missing bytes from what was appended later and delivers the command, that argument altered, if and only if what follows them reads as the arguments still due; otherwise it stops after the whole frames |
| `TornRestart.TornBodySwallows` | internal/resp/resp.go:55-75 | if that is the last argument, the n missing bytes are swallowed, the torn command is delivered with it altered, and reading goes on in the middle of what was appended; with fewer than n bytes nothing more is delivered |
| `TornRestart.LeftIsPrefix` | internal/aof/aof.go:119-124 | each such tear is a proper prefix of the frame, as a crash can leave it |
| `TornRestart.EveryCutIsATear` | internal/aof/aof.go:119-124 | and there are no others: every proper prefix but the empty one is one of these tears |
| `TornRestart.AppendsAfterWholeAreKept` | internal/aof/aof.go:41-56 | after a whole log everything appended is replayed |
| `Restart.ReplayFile` | internal/server/server.go:148-156 | reading any file into a fresh sharded store through one connection, subscribe mode included, gives the flat replay of the commands it hears |
| `Restart.Serve` | internal/command/command.go:63-207 | serving commands one after the other on the sharded store and the log, from connections outside subscribe mode, gives the flat keyspace and its records |
| `Restart.CrashAndRestart` | internal/server/server.go:83-143 | serve any commands, stop at once (the file possibly ending in a torn frame) or after an orderly close, read back with any shard count and hash: the new store mirrors the keyspace at the last record delivered, exactly if no command sets a deadline, and if no deadline passes with each expiry absent or moved as far as the record that set it; after an orderly close that is the last record |
| `Glob.MatchHere` | internal/store/helpers.go:41-91 | the matcher terminates and answers exactly whether the string is in the language of the tokenised pattern |
| `Glob.MatchClass` | internal/store/helpers.go:96-125 | membership in the class's ranges, negated or not, and a remainder that does not depend on the byte |
| `Glob.GlobMatch` | internal/store/helpers.go:37-39 | the entry point answers membership in the pattern's language |
| `Glob.StarSplits` | internal/store/helpers.go:53-58 | a star stands for the existence of a split |
| `Glob.StarsCollapse` | internal/store/helpers.go:45-49 | collapsing consecutive stars keeps the meaning |
| `Glob.NothingMatches` | internal/store/helpers.go:41-91 | the empty pattern matches the empty text alone |
| `Glob.StarMatches` | internal/store/helpers.go:44-58 | a star in a pattern matches any beginning of the text |
| `Glob.QuestionMatches` | internal/store/helpers.go:59-63 | a question mark matches one character |
| `Glob.BracketsMatch` | internal/store/helpers.go:96-125 | characters in brackets match any one of them |
| `Glob.NegationMatches` | internal/store/helpers.go:96-125 | with a circumflex in front, any one of the others |
| `Glob.DashMatches` | internal/store/helpers.go:96-125 | a dash stands for all that lies between, both ends included |
| `Glob.OpenBracketMatches` | internal/store/helpers.go:118-122 | a bracket that is never closed matches nothing |
| `Glob.EscapeMatches` | internal/store/helpers.go:73-81 | a backslash makes the next character match itself |
| `Glob.CharacterMatches` | internal/store/helpers.go:82-87 | any other character matches itself, as does a backslash at the end |
| `Glob.EscapedMatchesItself` | internal/store/helpers.go:73-81 | a fully escaped string matches itself and nothing else |
| `ShardedStore.NextPow2` | internal/store/store.go:778-787 | the least power of two at or above n |
| `ShardedStore.MaskIsRemainder` | internal/store/store.go:89-93 | masking a hash with a power of two less one is taking the remainder |
| `ShardedStore.Store.constructor` | internal/store/store.go:76-83 | an empty store with a power-of-two number of shards, at least as many as asked for |
| `ShardedStore.Store.Set` | internal/store/store.go:111-120 | one critical section on the shards does to the live entries and answers what the flat map does: value and expiry replaced |
| `ShardedStore.Store.SetNX` | internal/store/store.go:124-138 | one critical section on the shards does to the live entries and answers what the flat map does: stored only where no live entry is |
| `ShardedStore.Store.SetXX` | internal/store/store.go:141-155 | one critical section on the shards does to the live entries and answers what the flat map does: stored only over a live entry |
| `ShardedStore.Store.Get` | internal/store/store.go:160-178 | one critical section on the shards does to the live entries and answers what the flat map does: reads the live string; a dead entry it removes was invisible already |
| `ShardedStore.Store.Append` | internal/store/store.go:192-206 | one critical section on the shards does to the live entries and answers what the flat map does: grows the string and keeps its expiry |
| `ShardedStore.Store.GetSet` | internal/store/store.go:209-223 | one critical section on the shards does to the live entries and answers what the flat map does: old value out, new one in without expiry |
| `ShardedStore.Store.IncrBy` | internal/store/store.go:240-268 | one critical section on the shards does to the live entries and answers what the flat map does: the sum stored and the expiry kept, or refused on overflow, non-integer or wrong type |
| `ShardedStore.Store.Del` | internal/store/store.go:273-281 | one critical section on the shards does to the live entries and answers what the flat map does: reports whether a live key went, and removes dead ones unseen |
| `ShardedStore.Store.Exists` | internal/store/store.go:284-291 | one critical section on the shards does to the live entries and answers what the flat map does: live keys only |
| `ShardedStore.Store.Type` | internal/store/store.go:294-304 | one critical section on the shards does to the live entries and answers what the flat map does: the live kind or none |
| `ShardedStore.Store.Expire` | internal/store/store.go:307-319 | one critical section on the shards does to the live entries and answers what the flat map does: sets the deadline of a live key |
| `ShardedStore.Store.Persist` | internal/store/store.go:323-335 | one critical section on the shards does to the live entries and answers what the flat map does: removes the deadline, if there is one |
| `ShardedStore.Store.TTL` | internal/store/store.go:340-353 | one critical section on the shards does to the live entries and answers what the flat map does: remaining time saturated to a duration, measured by the second reading of the clock; with one reading it is that of the flat map |
| `ShardedStore.Store.HSet` | internal/store/store.go:405-425 | one critical section on the shards does to the live entries and answers what the flat map does: last value per field wins; counts the fields added |
| `ShardedStore.Store.HGet` | internal/store/store.go:428-442 | one critical section on the shards does to the live entries and answers what the flat map does: one field of a live hash |
| `ShardedStore.Store.HDel` | internal/store/store.go:445-471 | one critical section on the shards does to the live entries and answers what the flat map does: counts fields removed and drops the key when none is left |
| `ShardedStore.Store.LPush` | internal/store/store.go:570-587 | one critical section on the shards does to the live entries and answers what the flat map does: arguments end up reversed at the head |
| `ShardedStore.Store.RPush` | internal/store/store.go:590-604 | one critical section on the shards does to the live entries and answers what the flat map does: arguments appended in order |
| `ShardedStore.Store.LPop` | internal/store/store.go:607-609 | one critical section on the shards does to the live entries and answers what the flat map does: head out; key dropped when empty |
| `ShardedStore.Store.RPop` | internal/store/store.go:612-614 | one critical section on the shards does to the live entries and answers what the flat map does: tail out; key dropped when empty |
| `ShardedStore.Store.LIndex` | internal/store/store.go:665-682 | one critical section on the shards does to the live entries and answers what the flat map does: element at a signed index |
| `ShardedStore.Store.LRange` | internal/store/store.go:686-714 | one critical section on the shards does to the live entries and answers what the flat map does: clamped inclusive slice, never out of bounds |
| `ShardedStore.Store.LazyDelete` | internal/store/store.go:182-188 | the re-checked delete never changes the live entries |
| `ShardedStore.Store.Keys` | internal/store/store.go:358-374 | every live matching key once and nothing else |
| `ShardedStore.Store.FlushDB` | internal/store/store.go:377-383 | nothing is left |
| `ShardedStore.Store.DBSize` | internal/store/store.go:386-399 | the number of live keys |
| `ShardedStore.Store.SweepExpired` | internal/store/store.go:721-734 | leaves exactly the live entries, and the physical count before is that after plus the number removed |
| `ShardedStore.Store.SnapshotAll` | internal/store/store.go:750-776 | every live entry once, in some order |
| `Refinement.RunStore` | internal/store/store.go:57-105 | refinement over whole runs: for any shard count, hash and non-decreasing clock the sharded store answers every operation as one flat map with exact expiry, sweeps included |
| `Refinement.Dispatch` | internal/store/store.go:111-714 | every store method refines its operation on the flat map |
| `AofLog.Log.constructor` | internal/aof/aof.go:41-56 | opening a whole file continues it |
| `AofLog.Log.WriteCommand` | internal/aof/aof.go:119-124 | prints exactly one frame |
| `AofLog.Log.WriteNext` | internal/aof/aof.go:61-77 | one turn of the writer conserves the log and only ever extends the file, wherever a full buffer cuts a frame |
| `AofLog.Log.Overflow` | internal/aof/aof.go:41-56 | the write buffer passes any prefix of itself on; no byte is lost or reordered |
| `AofLog.Log.Append` | internal/aof/aof.go:82-87 | the record joins the end of the log, blocking on a full queue |
| `AofLog.Log.Close` | internal/aof/aof.go:90-100 | afterwards the file is the encoding of every record ever appended |
| `AofLog.Log.Size` | internal/aof/aof.go:103-115 | flushes and measures without losing anything |
| `AofLog.Log.Rewrite` | internal/aof/aof.go:159-199 | the file becomes the encoding of the commands of the snapshot; exactly what is still queued will follow, what was written before is gone |
| `Handlers.ParseSetOpts` | internal/command/helpers.go:18-55 | the option loop computes what OptionsAreGrammar and OptionsAreUnordered are about |
| `SetOptions.OptionsAreGrammar` | internal/command/helpers.go:18-55 | SET takes its options if and only if each is known and well formed, at most one lifetime is given and not both NX and XX, and it understands exactly what they say |
| `SetOptions.OptionsAreUnordered` | internal/command/helpers.go:18-55 | the order of the options does not matter |
| `Commands.TTLCodeLate` | internal/command/command.go:412-427 | what the second clock reading of TTL can do: the number of a live key is mistaken for a code exactly when that reading is past the deadline by a whole unit |
| `Commands.TTLCodeMeans` | internal/command/command.go:412-427 | -2 exactly when there is no live key, -1 exactly when it has no deadline, otherwise the whole units that remain |
| `Handlers.CmdSet` | internal/command/command.go:215-242 | handler on the sharded store: effect, answer, rejections and log record are those of the request; NX and XX log only when they store |
| `Handlers.CmdGet` | internal/command/command.go:244-256 | handler on the sharded store: effect, answer, rejections and log record are those of the request; never logs |
| `Handlers.CmdGetSet` | internal/command/command.go:258-272 | handler on the sharded store: effect, answer, rejections and log record are those of the request; logs a plain SET |
| `Handlers.CmdAppend` | internal/command/command.go:274-284 | handler on the sharded store: effect, answer, rejections and log record are those of the request; logs itself |
| `Handlers.Increment` | internal/command/command.go:319-326 | handler on the sharded store: effect, answer, rejections and log record are those of the request; logs the value reached as a plain SET |
| `Handlers.CmdIncr` | internal/command/command.go:313-327 | handler on the sharded store: effect, answer, rejections and log record are those of the request; INCR and DECR |
| `Handlers.CmdIncrBy` | internal/command/command.go:298-327 | handler on the sharded store: effect, answer, rejections and log record are those of the request; INCRBY and DECRBY, with the wrap-around of the negation |
| `Handlers.CmdType` | internal/command/command.go:390-395 | handler on the sharded store: effect, answer, rejections and log record are those of the request; never logs |
| `Handlers.CmdExpire` | internal/command/command.go:397-410 | handler on the sharded store: effect, answer, rejections and log record are those of the request; logs only when the key was live; the amount times the unit wraps to int64 |
| `Handlers.CmdTTL` | internal/command/command.go:412-427 | handler on the sharded store: effect, answer, rejections and log record are those of the request; never logs, and the number it answers is the one TTLCodeMeans is about |
| `Handlers.CmdPersist` | internal/command/command.go:429-438 | handler on the sharded store: effect, answer, rejections and log record are those of the request; logs only when a deadline went |
| `Handlers.CmdHSet` | internal/command/command.go:449-464 | handler on the sharded store: effect, answer, rejections and log record are those of the request; logs itself unless refused |
| `Handlers.CmdHGet` | internal/command/command.go:466-478 | handler on the sharded store: effect, answer, rejections and log record are those of the request; never logs |
| `Handlers.CmdHDel` | internal/command/command.go:480-492 | handler on the sharded store: effect, answer, rejections and log record are those of the request; logs only when a field went |
| `Handlers.CmdPush` | internal/command/command.go:544-562 | handler on the sharded store: effect, answer, rejections and log record are those of the request; logs itself unless refused |
| `Handlers.CmdPop` | internal/command/command.go:564-586 | handler on the sharded store: effect, answer, rejections and log record are those of the request; logs only when an element came out |
| `Handlers.CmdLIndex` | internal/command/command.go:599-615 | handler on the sharded store: effect, answer, rejections and log record are those of the request; never logs |
| `Handlers.CmdLRange` | internal/command/command.go:617-631 | handler on the sharded store: effect, answer, rejections and log record are those of the request; never logs |
| `Executor.CmdMGet` | internal/command/command.go:329-345 | strings at the keys, anything else missing, live view unchanged |
| `Executor.CmdMSet` | internal/command/command.go:347-357 | all pairs in order, one plain SET record each |
| `Executor.CmdDel` | internal/command/command.go:361-375 | counts distinct live keys removed; logged only if any |
| `Executor.CmdExists` | internal/command/command.go:377-388 | counts every mention of a live key |
| `Executor.CmdFlushDB` | internal/command/command.go:145-148 | empties the store and is always logged |
| `Executor.Perform` | internal/command/command.go:88-199 | dispatch: every modelled command acts and logs as its parsed request says; the others touch nothing |
| `Executor.AppendAOF` | internal/command/command.go:203-207 | records join the log in order |
| `Executor.Execute` | internal/command/command.go:63-207 | one command on store and log equals one command on the flat keyspace and its records; while the connection holds a subscription nothing changes and only four names are let through; SUBSCRIBE and UNSUBSCRIBE change what it holds |
| `Executor.ActOnLive` | internal/store/store.go:99-105 | what a command does depends on the live entries only |
| `PubSubSteps.SubscriberGuarantee` | internal/pubsub/pubsub.go:80-103 | in every interleaving, each subscription was given only messages published to its channel, each publish at most once, each publisher's in order, and its buffer never exceeds 64 |
| `PubSubSteps.PublisherGuarantee` | internal/pubsub/pubsub.go:80-103 | the count a publish returns is the number of subscriptions that took its message |
| `PubSubSteps.RegistrationGuarantee` | internal/pubsub/pubsub.go:48-75 | in every interleaving the registered subscriptions are the open ones, and no channel keeps an empty set |
| `Broker.Broker.Subscribe` | internal/pubsub/pubsub.go:48-59 | one fresh open subscription joins the registered ones |
| `Broker.Broker.Unsubscribe` | internal/pubsub/pubsub.go:63-75 | takes out exactly that one, closes it once, and drops an emptied channel |
| `Broker.Broker.Publish` | internal/pubsub/pubsub.go:80-103 | every subscriber with room gets the message, nobody else changes, no buffer exceeds 64, and the count is of those who took it |
| `Broker.CmdSubscribe` | internal/command/command.go:635-655 | broker and connections stay in agreement; repeated channels are not subscribed twice |
| `Broker.CmdUnsubscribe` | internal/command/command.go:657-679 | the named channels go, or all of them when none is named |
| `Broker.Disconnect` | internal/server/server.go:212-218 | the broker forgets every subscription of the connection |
| `Broker.Connect` | internal/server/server.go:172-190 | a new connection joins with nothing in hand |
| `Broker.RunConnections` | internal/server/server.go:172-248 | after any run of connecting, subscribing, unsubscribing and leaving, each connection holds what it asked for, the broker's subscriptions are their disjoint union, and a channel is known exactly while someone present wants it |
| `Broker.WantedIsHeld` | internal/command/command.go:635-679 | what a connection holds by its records is what the broker comes to know it by |
| `Broker.KnownChannels` | internal/pubsub/pubsub.go:63-75 | the broker knows a channel exactly when some connection present wants it |
| `Maintenance.MaintenanceIsSafe` | internal/server/server.go:158-170 | in every interleaving with arbitrary writes, no lazy delete or sweep step with a stale timestamp removes or alters an entry live at the current clock |
| `Maintenance.MaintenanceIsInvisible` | internal/store/store.go:160-188 | in every interleaving of operations that read the clock before they get the lock, writes, lazy deletes and sweeps, in which no operation comes with a reading at or before the deadline of what maintenance has taken away from its key, the operations answer what they answer without the maintenance steps, and the live entries are the same, now and later |
| `Maintenance.StaleReadingSeesMaintenance` | internal/store/store.go:284-291 | the condition is exact: a reading lets every operation on the key answer as without maintenance if and only if it is later than that deadline |
| `Maintenance.PromptIsTimely` | internal/store/store.go:99-105 | operations that read the clock under the lock always meet the condition |
| `Maintenance.LateExistsMissesKey` | internal/store/store.go:284-291 | the failing input: EXISTS reads the clock, the key dies, a sweep takes it, and EXISTS misses the key it would have found |
| `Maintenance.LateIncrementRevivesKey` | internal/store/store.go:240-268 | and INCR leaves a counter without a deadline where nothing would be alive |
| `Counters.CounterIsExact` | internal/store/store.go:240-268 | over any run of increments the stored text parses back to the exact sum of the accepted deltas, inside int64 |
| `Counters.RefusedExactlyOnOverflow` | internal/store/store.go:260-264 | after any such run a delta is refused, with nothing changed, exactly when the sum with the accepted ones would leave int64, and otherwise added |
| `Counters.GuardIsExact` | internal/store/store.go:260-263 | the overflow guard is exact and does not itself overflow |
| `Counters.ClientCounterIsExact` | internal/command/command.go:298-327 | any run of INCR, DECR, INCRBY and DECRBY, in any case, on a counter that does not expire meanwhile: its text parses back to the start and the sum of what was granted, and its deadline is kept |
| `Counters.CounterCommand` | internal/command/command.go:298-327 | each such command goes up by one, down by one, or by its argument either way, or is refused for overflow |
| `Counters.CounterRefuses` | internal/store/store.go:240-259 | what is no string is refused for its kind, what is no number because it is none, and both are left as they were |
| `Counters.DecrByIsExact` | internal/command/command.go:301-313 | on every counter DECRBY stores and answers the difference, or refuses it when it does not fit, if and only if its argument is not the least int64 |
| `Counters.DecrByLeastGoesDown` | internal/command/command.go:310-312 | the failing input: DECRBY by the least int64 goes down instead of overflowing |
| `Deques.OpRefines` | internal/store/store.go:570-646 | each list command does to the key, and answers, what the deque operation does |
| `Deques.ListRefinesDeque` | internal/store/store.go:570-646 | any sequence of list commands, from any list with or without a deadline and at any instants, leaves and answers what the abstract deque does that pushes and pops one element at a time, keeps its deadline until it is empty, and is gone once it has passed |
| `Deques.FirstInFirstOut` | internal/store/store.go:590-646 | with RPUSH and LPOP alone, what the replies handed out followed by what is left is what went in |
| `Deques.ClientRefinesDeque` | internal/command/command.go:173-176 | any run of LPUSH, RPUSH, LPOP and RPOP, in any case, leaves at the key and answers what the abstract deque does, L being its left end |
| `Deques.ClientFifo` | internal/command/command.go:544-586 | with RPUSH and LPOP alone on a missing key, what a client has been handed out, followed by what is still there, is in order what it has pushed |
| `Deques.LIndexShows` | internal/command/command.go:599-615 | LINDEX answers the element at the position its index means, counted from the right if negative, or nothing |
| `Deques.LRangeShows` | internal/command/command.go:617-631 | LRANGE answers, in order, the elements whose positions lie between those its indexes mean |
| `Deques.RangeIsClampedSlice` | internal/store/store.go:686-714 | for all signed indexes a position is in the range if and only if it lies between the normalised ends, in order |
| `Deques.RangeAgreesWithIndex` | internal/store/store.go:665-714 | LRANGE agrees with LINDEX element by element |

## Left out

- Deadlines that pass during a run: expiry is never logged and logged times are relative, so the replay theorems with expiries are about runs in which no deadline passes between a command's effect and the end of the run; runs that set no deadline need no such hypothesis.
- Concurrent connections and the state: `Execute` and `Append` are not atomic together, so theorems that equate states are about commands executed one after the other. Order and conservation of the log (`WriterConserves`) cover every interleaving.
- Order inside MSET: a handler hands its records to `Execute`, which appends them once the store work is done; MSET in the code appends each record right after its own set.
- Restart onto a torn log: what the replay then delivers is stated (`AppendsAfterTearAreLost`, `TornBodyReadsOn`), not what keyspace that makes.
- Compaction under load inside a crash run: in the crash theorems compaction happens at one point with nothing on its way; `CompactionRace` states what a compaction among appends leaves, and not what a crash before or during the swap does. Snapshots that see a write in one shard and miss an earlier one in another are not modelled.
- File errors, short writes, fsync and the temporary file of a rewrite: the file is a byte sequence, the buffer may pass any prefix of itself on at any time, a rename is one step.
- Locks, and the sharing of hash maps and list slices between an entry and its copies: each store method is one critical section on values.
- Several clock readings inside one command: the dispatcher reads the clock once; `Maintenance` models the readings made before a lock is taken, and `Store.TTL` its second reading.
- A negative bulk length: the Go runtime panics in `make`; the model ends the reading there and gives it no other meaning. Counts and lengths too large to allocate read as input that ends too early.
- Case folding beyond ASCII in command names, and characters beyond one byte in inline commands.
- Huge shard counts, for which the doubling in `nextPow2` would overflow, and the FNV-1a hash itself: the hash is any function to the naturals.
- Executor.Perform: STRLEN, KEYS, DBSIZE, PUBLISH, INFO and the reads listed next answer as commands that are not about the keyspace, because they change and log nothing.
- Executor.Execute: what the connection holds is a set of channel names here; that the handlers keep exactly these as subscriptions of the broker is stated in `Broker`.
- HGETALL, HKEYS, HVALS, HLEN, HEXISTS, LLEN and STRLEN: simple reads in the style of HGET and LINDEX.
- PING, ECHO, COMMAND, INFO and the texts and encodings of replies; KEYS and DBSIZE are modelled in the store and not in the dispatcher.
- A send to a delivery channel closed after the publisher took its snapshot: it panics and ends the run, so the publish theorems are about runs up to that point.
- Delivery goroutines writing to the client socket: receiving takes a message out of the buffer and goes no further.
- Accepting connections, client limits, contexts, signals, `cmd/server` and the HTTP demo.

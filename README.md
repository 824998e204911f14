# audioplayers (Android side): a verified model

This project models the Android half of the `audioplayers` Flutter plugin, in
a version that also stores playback positions per book and chapter. The plugin keeps a map from player ids to players. Each player is
backed by a `WrappedMediaPlayer` or a `WrappedSoundPool`. The plugin serves
the method calls Dart sends over the `xyz.luan/audioplayers` channel. While
something plays, it polls every 50 ms: it sends each playing player's
duration and position back to Dart and stores the position in the SQLite
table `tracker`. A row there is keyed by the book id and chapter index that
were current when the poller started.

Modules:

- `Schema` (`schema.dfy`): the `tracker` table.
  - Its column constants and its two SQL statements.
  - What SQLite does with a row inserted under
    `UNIQUE(book_id, chapter_index) ON CONFLICT REPLACE`: the conflicting row is
    deleted and the new one appended. A NULL key part never conflicts.
  - The table seen as a map from key to the last stored time (`Positions`).
- `Events` (`events.dfy`): the channel messages and `buildArguments`.
- `Registry` (`registry.dfy`): `getPlayer`'s get-or-create. It includes
  `equalsIgnoreCase`, which picks the backend.
- `Commands` (`commands.dfy`): the `switch` of `handleMethodCall`, as a
  function. It returns the backend operations in order, the response, and any
  book information recorded. The exceptions the switch itself raises are
  explicit error results:
  - a missing argument that is unboxed to a primitive is a `NullPointerException`;
  - a short release-mode name is a `StringIndexOutOfBoundsException`;
  - an unknown release mode is an `IllegalArgumentException`;
  - a backend read that the backend refuses is an
    `UnsupportedOperationException` (whether it refuses is part of the
    `Reading` parameter).

  Backend operations themselves are taken never to throw (see "Left out").
- `Poller` (`poller.dfy`): one tick of `UpdateCallback.run`, as a fold over
  the players in the map's iteration order. It comes with independent
  reference definitions: the players that write, and the events a tick must
  emit. Inductive lemmas link the two.
- `Plugin` (`plugin.dfy`): the `AudioplayersPlugin` object as a class.
  - Its fields: the player map, the channel log, `positionUpdates`, the
    handler's queue, `seekFinish`, `book_id` / `chapter_index`, the table, and
    whether the database is open.
  - `RunPending` runs the queued `UpdateCallback`. It calls `SweepPlayers`,
    which holds the source's `for` loop; that loop is proved equal to
    `Poller.SweepOver`.
  - The class invariant `Valid` says:
    - every player sits under its own id;
    - the table keeps its UNIQUE invariant;
    - the handler holds at most one message, and only the current callback.

Inputs the Java code gets from outside become parameters:

- what a backend answers (`Registry.Reading`: playing, duration, position,
  whether reads throw, what `setRate` returns);
- the `HashMap` iteration order (`order`, constrained by
  `Plugin.IterationOrder`);
- which weakly referenced objects are still reachable when a callback runs
  (`Plugin.Liveness`).

The message handler is modelled as a queue of at most one message that the
caller runs explicitly. `post` gives delay 0 and `postDelayed` gives delay 50.

## Model

| member | source | states |
|---|---|---|
| Schema.SqlCreateEntries | android/src/main/java/xyz/luan/audioplayers/FeedReaderContract.java:22-26 | the CREATE statement, built from the table and column constants; the literal column list of its UNIQUE clause names exactly the two key column constants |
| Schema.SqlDeleteEntries | android/src/main/java/xyz/luan/audioplayers/FeedReaderContract.java:28-29 | the statement is `DROP TABLE IF EXISTS tracker` |
| Schema.Without | android/src/main/java/xyz/luan/audioplayers/FeedReaderContract.java:26 | the rows REPLACE keeps: the result has no row with key k, is shorter by exactly the number of rows with key k, and holds only rows of the table |
| Schema.WithoutMultiplicity | android/src/main/java/xyz/luan/audioplayers/FeedReaderContract.java:26 | REPLACE deletes exactly the rows with key k: every other row, NULL-key rows included, keeps its multiplicity |
| Schema.Insert | android/src/main/java/xyz/luan/audioplayers/FeedReaderContract.java:26 | an insert appends the new row, no row left before it conflicts with it, and every row was already there or is the new one |
| Schema.PositionsFromRows | android/src/main/java/xyz/luan/audioplayers/FeedReaderContract.java:26 | every stored position is the time of the last row carrying that key |
| Schema.PositionsHasKey | android/src/main/java/xyz/luan/audioplayers/FeedReaderContract.java:26 | a key has a stored position iff some row carries that key |
| Schema.PositionsWithout | android/src/main/java/xyz/luan/audioplayers/FeedReaderContract.java:26 | deleting the rows of key k removes exactly k from the position map |
| Schema.WithoutKeepsUnique | android/src/main/java/xyz/luan/audioplayers/FeedReaderContract.java:26 | deleting the rows of a key keeps the UNIQUE invariant |
| Schema.WithoutAbsent | android/src/main/java/xyz/luan/audioplayers/FeedReaderContract.java:26 | deleting an absent key changes nothing |
| Schema.UniqueAtMostOne | android/src/main/java/xyz/luan/audioplayers/FeedReaderContract.java:26 | under the UNIQUE invariant a key is carried by at most one row |
| Schema.KeyedRow | android/src/main/java/xyz/luan/audioplayers/FeedReaderContract.java:26 | a key with a row has a row index carrying it |
| Schema.InsertKeepsUnique | android/src/main/java/xyz/luan/audioplayers/FeedReaderContract.java:26 | every insert keeps the table free of two rows with one non-NULL key |
| Schema.InsertMultiplicity | android/src/main/java/xyz/luan/audioplayers/FeedReaderContract.java:26 | an insert keeps the multiplicity of every row that does not conflict with the new one (NULL-key rows always among them), adds the new row once, and removes the rows it conflicts with |
| Schema.InsertPositions | android/src/main/java/xyz/luan/audioplayers/FeedReaderContract.java:26 | an insert records its time under its key and leaves every other key alone; a NULL key part changes no position |
| Schema.InsertLeavesOneRow | android/src/main/java/xyz/luan/audioplayers/FeedReaderContract.java:26 | after an insert with a real key exactly one row has that key, holding the inserted time |
| Schema.InsertNewOrExistingKey | android/src/main/java/xyz/luan/audioplayers/FeedReaderContract.java:26 | a new key grows the table by exactly that row; an existing key keeps the row count |
| Schema.LastWriterWins | android/src/main/java/xyz/luan/audioplayers/FeedReaderContract.java:26 | two inserts under one key leave one row holding the second time |
| Schema.NullKeyRowsAccumulate | android/src/main/java/xyz/luan/audioplayers/FeedReaderContract.java:26 | a row with a NULL key part replaces nothing: the table grows by one |
| Schema.Execute | android/src/main/java/xyz/luan/audioplayers/FeedReaderContract.java:22-29 | DROP IF EXISTS always succeeds and leaves no table; CREATE succeeds iff there is no table |
| Schema.DropThenCreateIsEmpty | android/src/main/java/xyz/luan/audioplayers/FeedReaderContract.java:22-29 | drop then create, from any state, gives an empty table that satisfies the UNIQUE invariant |
| Events.BuildArguments | android/src/main/java/xyz/luan/audioplayers/AudioplayersPlugin.java:219-224 | the map has exactly the keys `playerId` and `value`, and reading it back gives the id and value put in |
| Events.Event | android/src/main/java/xyz/luan/audioplayers/AudioplayersPlugin.java:190-200 | an event carries its method name, and its arguments read back as the player id and value |
| Events.EventInjective | android/src/main/java/xyz/luan/audioplayers/AudioplayersPlugin.java:219-224 | distinct (method, player, value) triples give distinct channel messages |
| Registry.EqualsIgnoreCase | android/src/main/java/xyz/luan/audioplayers/AudioplayersPlugin.java:178 | every string equals itself ignoring case, and strings of different lengths never do |
| Registry.Upper | android/src/main/java/xyz/luan/audioplayers/AudioplayersPlugin.java:178 | upper-casing keeps the length |
| Registry.UpperAt | android/src/main/java/xyz/luan/audioplayers/AudioplayersPlugin.java:178 | upper-casing works character by character |
| Registry.EqualsIgnoreCaseIffUpper | android/src/main/java/xyz/luan/audioplayers/AudioplayersPlugin.java:178 | the character-wise `equalsIgnoreCase` holds iff both strings upper-case to the same string |
| Registry.KindForMediaPlayerIff | android/src/main/java/xyz/luan/audioplayers/AudioplayersPlugin.java:177-180 | a new player is a MediaPlayer iff its mode upper-cases like `PlayerMode.MEDIA_PLAYER`, and a SoundPool otherwise |
| Registry.KindForKnownModes | android/src/main/java/xyz/luan/audioplayers/AudioplayersPlugin.java:177-180 | `PlayerMode.MEDIA_PLAYER` gives a MediaPlayer and `PlayerMode.LOW_LATENCY` a SoundPool |
| Registry.Resolve | android/src/main/java/xyz/luan/audioplayers/AudioplayersPlugin.java:175-184 | an existing id returns its player and changes nothing; a new id with a mode adds exactly that player with the kind the mode selects; a new id with no mode throws; existing entries never change; ids stay matched |
| Registry.ResolveAllCreatesOnce | android/src/main/java/xyz/luan/audioplayers/AudioplayersPlugin.java:175-184 | over any series of lookups of one id, at most one player is created, with the kind of the first non-null mode |
| Commands.ReleaseModeName | android/src/main/java/xyz/luan/audioplayers/AudioplayersPlugin.java:158 | `substring(12)` succeeds iff the string has at least 12 characters; the dropped prefix plus the result is the input; otherwise it throws index out of bounds |
| Commands.ReleaseModeOf | android/src/main/java/xyz/luan/audioplayers/AudioplayersPlugin.java:158 | `valueOf` returns the constant spelled exactly `name`, or throws illegal argument when there is none |
| Commands.ParseReleaseMode | android/src/main/java/xyz/luan/audioplayers/AudioplayersPlugin.java:157-158 | the argument selects the mode named after its first twelve characters; it fails iff it is shorter than twelve characters (index error) or no mode has that name (illegal argument) |
| Commands.ReleaseModeRoundTrip | android/src/main/java/xyz/luan/audioplayers/AudioplayersPlugin.java:156-161 | `ReleaseMode.` + a mode's name parses back to that mode |
| Commands.ReleaseModePrefixUnchecked | android/src/main/java/xyz/luan/audioplayers/AudioplayersPlugin.java:158 | any 12 characters in front of a mode name parse to that mode; anything shorter than 12 characters throws |
| Commands.Dispatch | android/src/main/java/xyz/luan/audioplayers/AudioplayersPlugin.java:87-172 | unknown methods are not implemented and perform no operation; every failure carries the code `Unexpected error!`; only `setBookInfo` records book information, with no backend operation |
| Commands.DispatchResponses | android/src/main/java/xyz/luan/audioplayers/AudioplayersPlugin.java:88-172 | `getDuration` and `getCurrentPosition` answer with the backend's value or the exception its read throws; `setPlaybackRate` answers what `setRate` returns, and with no rate throws a NullPointerException; every other handled method fails exactly when `Fails` says (a primitive argument it unboxes is absent, `play` given a position with no mode, or a release-mode name that does not parse) and otherwise answers 1 |
| Commands.ArgumentFreeCommandsSucceed | android/src/main/java/xyz/luan/audioplayers/AudioplayersPlugin.java:104-166 | `resume`, `pause`, `stop`, `release` and `earpieceOrSpeakersToggle` always answer 1 |
| Commands.PlaySequence | android/src/main/java/xyz/luan/audioplayers/AudioplayersPlugin.java:88-103 | `play` configures, sets the volume, sets the URL, seeks only when a position is given and the mode is not `PlayerMode.LOW_LATENCY`, then plays, and answers 1 |
| Commands.PlayWithoutModeThrowsLate | android/src/main/java/xyz/luan/audioplayers/AudioplayersPlugin.java:88-103 | `play` with a position on an existing player and no mode throws after exactly configAttributes, setVolume and setUrl, and never seeks or plays |
| Commands.PlaySeekTestIsCaseSensitive | android/src/main/java/xyz/luan/audioplayers/AudioplayersPlugin.java:98 | for every spelling that equals `PlayerMode.LOW_LATENCY` ignoring case but differs from it, the new player is a SoundPool, as with the exact spelling, yet `play` seeks it, which the exact spelling does not |
| Commands.BookInfoOnlyFromSetBookInfo | android/src/main/java/xyz/luan/audioplayers/AudioplayersPlugin.java:136-141 | book information is recorded iff the call is `setBookInfo` with both ids present; it is exactly those ids, and no backend operation happens |
| Commands.SetReleaseModeOutcome | android/src/main/java/xyz/luan/audioplayers/AudioplayersPlugin.java:156-161 | `setReleaseMode` succeeds iff its argument is present and parses, and then it sets exactly that mode |
| Poller.Visit | android/src/main/java/xyz/luan/audioplayers/AudioplayersPlugin.java:271-298 | one iteration: after an abort nothing changes; the log only grows; an abort changes no log, table or flag; `nonePlaying` and the seek flag are only ever cleared |
| Poller.SweepOver | android/src/main/java/xyz/luan/audioplayers/AudioplayersPlugin.java:270-299 | the whole loop: an abort is final, the log only grows, and `nonePlaying` and the seek flag are only ever cleared |
| Poller.Writers | android/src/main/java/xyz/luan/audioplayers/AudioplayersPlugin.java:270-278 | there are never more writing players than players |
| Poller.WritersMembership | android/src/main/java/xyz/luan/audioplayers/AudioplayersPlugin.java:270-278 | a player writes in a tick iff it is in the map, playing, and its reads do not throw |
| Poller.SeekCompletionsAppend | android/src/main/java/xyz/luan/audioplayers/AudioplayersPlugin.java:292-295 | seek-complete events count additively over a log |
| Poller.ExpectedSnoc | android/src/main/java/xyz/luan/audioplayers/AudioplayersPlugin.java:290-295 | the front-stated expected log extends by one writer's duration, position and (if the flag is still up) seek event |
| Poller.ExpectedSeekCompletions | android/src/main/java/xyz/luan/audioplayers/AudioplayersPlugin.java:290-295 | a tick emits two events per writer, plus one seek completion, attached to the first writer, iff the flag was set and someone wrote |
| Poller.SweepNonePlaying | android/src/main/java/xyz/luan/audioplayers/AudioplayersPlugin.java:269-275 | `nonePlaying` ends true iff no player is playing, whatever the database; an aborted tick had someone playing |
| Poller.SweepOpenNoAbort | android/src/main/java/xyz/luan/audioplayers/AudioplayersPlugin.java:287 | with the database open a tick never aborts |
| Poller.SweepEvents | android/src/main/java/xyz/luan/audioplayers/AudioplayersPlugin.java:270-299 | with the database open a tick appends exactly the expected events for its writers, and the seek flag survives iff nobody wrote |
| Poller.SweepTableNullKey | android/src/main/java/xyz/luan/audioplayers/AudioplayersPlugin.java:280-287 | with no book information captured, every writer adds a row and no stored position changes |
| Poller.SweepTableKeyed | android/src/main/java/xyz/luan/audioplayers/AudioplayersPlugin.java:280-287 | with book information captured, the key ends holding the last writer's position and every other key is unchanged |
| Poller.SweepKeepsUnique | android/src/main/java/xyz/luan/audioplayers/AudioplayersPlugin.java:287 | a tick keeps the UNIQUE invariant |
| Poller.SweepClosedDatabase | android/src/main/java/xyz/luan/audioplayers/AudioplayersPlugin.java:274-298 | with the database closed a tick aborts iff someone would write, and emits no event, writes no row and keeps the seek flag |
| Poller.SweepAbortedPrefix | android/src/main/java/xyz/luan/audioplayers/AudioplayersPlugin.java:270-299 | once the loop aborts, later players are never visited |
| Plugin.AudioplayersPlugin.constructor | android/src/main/java/xyz/luan/audioplayers/AudioplayersPlugin.java:55-66 | attaching starts with no players, no poller, the flag down, no book information, and the database open over its stored rows |
| Plugin.AudioplayersPlugin.OnDetachedFromEngine | android/src/main/java/xyz/luan/audioplayers/AudioplayersPlugin.java:68-71 | detaching closes the database and changes nothing else |
| Plugin.AudioplayersPlugin.GetPlayer | android/src/main/java/xyz/luan/audioplayers/AudioplayersPlugin.java:175-184 | the map and the returned player are exactly what `Registry.Resolve` gives; a missing mode for a new id returns nothing and changes nothing |
| Plugin.AudioplayersPlugin.HandleMethodCall | android/src/main/java/xyz/luan/audioplayers/AudioplayersPlugin.java:74-173 | a failed lookup answers `Unexpected error!` and changes nothing; otherwise the response is `Dispatch`'s, its operations are appended for the resolved player, and book information changes only as `Dispatch` records it; the poller, flag, log and table are untouched |
| Plugin.AudioplayersPlugin.HandleIsPlaying | android/src/main/java/xyz/luan/audioplayers/AudioplayersPlugin.java:186-188 | starts the poller exactly as `StartPositionUpdates` does |
| Plugin.AudioplayersPlugin.HandleDuration | android/src/main/java/xyz/luan/audioplayers/AudioplayersPlugin.java:190-192 | appends one `audio.onDuration` event for the player |
| Plugin.AudioplayersPlugin.HandleCompletion | android/src/main/java/xyz/luan/audioplayers/AudioplayersPlugin.java:194-196 | appends one `audio.onComplete` event with value true |
| Plugin.AudioplayersPlugin.HandleError | android/src/main/java/xyz/luan/audioplayers/AudioplayersPlugin.java:198-200 | appends one `audio.onError` event carrying the message |
| Plugin.AudioplayersPlugin.HandleSeekComplete | android/src/main/java/xyz/luan/audioplayers/AudioplayersPlugin.java:202-204 | raises the single plugin-wide seek flag, whichever player it is |
| Plugin.AudioplayersPlugin.StartPositionUpdates | android/src/main/java/xyz/luan/audioplayers/AudioplayersPlugin.java:206-212 | idempotent: when no poller exists, it creates one capturing the current book id and chapter index and posts it with no delay; otherwise nothing changes |
| Plugin.AudioplayersPlugin.StopPositionUpdates | android/src/main/java/xyz/luan/audioplayers/AudioplayersPlugin.java:214-217 | drops the poller and empties the handler's queue |
| Plugin.AudioplayersPlugin.VisitPlayer | android/src/main/java/xyz/luan/audioplayers/AudioplayersPlugin.java:270-299 | one iteration of the loop has exactly the effect of `Poller.Visit` and keeps the UNIQUE invariant |
| Plugin.AudioplayersPlugin.SweepPlayers | android/src/main/java/xyz/luan/audioplayers/AudioplayersPlugin.java:269-299 | the loop leaves log, table, flag, `nonePlaying` and the abort exactly as `Poller.SweepOver` computes them, and keeps the UNIQUE invariant |
| Plugin.AudioplayersPlugin.RunPending | android/src/main/java/xyz/luan/audioplayers/AudioplayersPlugin.java:252-306 | a collected collaborator stops the poller, or does nothing when the plugin itself is gone; otherwise log, table and flag become `SweepOver` of the old state, and the tick aborts on a closed database, stops when nothing played, or reposts the same callback with a 50 ms delay |

## Left out

- The `Player` implementations (`WrappedMediaPlayer`, `WrappedSoundPool`) are
  not part of this model. Their answers are the `Reading` parameter, and their
  operations are recorded as `BackendCall`s without effect.
- `ReleaseMode.java` is not part of this model. The release modes are taken to
  be `RELEASE`, `LOOP` and `STOP`.
- `FeedReaderDbHelper` is not part of this model. Opening the database is
  modelled as an open table over whatever rows it already holds. Closing it
  sets a flag. When and whether `onCreate`/`onUpgrade` run is not modelled;
  `Schema.Execute` gives only the meaning of the two statements.
- Android `Handler` timing: a delay is recorded on the queued message, and no
  clock is modelled. Running the queue is an explicit call.
- The channel and registrar plumbing are not modelled: the v1 `registerWith`
  path, `setMethodCallHandler`, and the logger in `onMethodCall`. The `Result`
  object is the returned `Response`, and the error's message and throwable are
  reduced to the exception kind.
- Garbage collection of weak references is a parameter (`Liveness`). The weak
  references to the captured `Integer` ids and to the database are taken as
  live: a collected `db` acts like a closed one.
- A closed database throws an `IllegalStateException` out of `db.insert`. The
  loop does not catch it, so in the app it escapes `run` on the main looper.
  Only the state at that point is modelled (`Aborted`), not what the process
  does next. The stale non-null `positionUpdates` left behind then keeps
  `StartPositionUpdates` from ever posting again.
- `db.insert` returning -1 on an SQL error is not modelled. The insert always
  applies the UNIQUE/REPLACE semantics.
- Positions are stored as `REAL` from a Java `int`; the model converts with
  `as real` and models no floating-point rounding. Volumes and playback rates
  are `real`.
- Registry.KindForMediaPlayerIff: models `equalsIgnoreCase` for ASCII letters only. Java
  also folds non-ASCII letters through `Character.toUpperCase`/`toLowerCase`.
- Backend operations (`configAttributes`, `setVolume`, `setUrl`, `seek`,
  `play`, `pause`, `stop`, `release`, `setReleaseMode`, `setPlayingRoute`) are
  taken never to throw and never to call back into the plugin during the
  call. `Commands.PlaySequence`'s "answers 1" and `HandleMethodCall`'s
  "poller, flag, log and table untouched" rest on this.
- `seek`'s `position` is a boxed `Integer` in `onMethodCall`. The model takes
  `Player.seek` to take an `int`, so a missing position unboxes to a
  `NullPointerException` (`Commands.Fails`). `Player.java` is not part of this
  model.
- A `ClassCastException` from `call.argument` (an argument of the wrong type)
  is not modelled: arguments are typed.
- Whether a backend's reads throw is the `readsThrow` field of its `Reading`.
  It is not derived from the player's kind, since the backends are not part of
  this model.
- Commands.ReleaseModeName: counts characters as Unicode scalar values, while
  Java's `length()` and `substring` count UTF-16 code units. An argument with
  characters outside the Basic Multilingual Plane is cut at a different place
  than in Java.
- A null `playerId` is not modelled: Java's `HashMap` accepts a null key, but
  here ids are always strings.
- The code keeps one plugin-wide `seekFinish`, which the first readable
  playing player of the next tick consumes, and writes rows under the ids
  captured when the poller started. The model does the same; it has no
  per-player seek flag.

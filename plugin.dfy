/** The plugin object: its fields, the commands it serves, the callbacks its
    backends make, and the position poller run on its handler. */
module Plugin {
  import opened Wrappers
  import opened Events
  import opened Schema
  import opened Registry
  import opened Commands
  import opened Poller

  /** Whether each collaborator an `UpdateCallback` holds weakly is still
      reachable when it runs. */
  datatype Liveness = Liveness(players: bool, channel: bool, handler: bool, plugin: bool)

  predicate AllLive(live: Liveness)
  {
    live.players && live.channel && live.handler && live.plugin
  }

  /** A message in the handler's queue: a callback to run after `delayMs`. */
  datatype Message = Message(callback: Callback, delayMs: nat)

  /** How a tick ended: the plugin was gone (nothing done), the poller
      stopped, the next tick was posted, or an exception left `run`. */
  datatype TickOutcome = Abandoned | Stopped | Rescheduled | Aborted

  /** A backend operation on a given player. */
  datatype BackendCall = BackendCall(playerId: string, op: BackendOp)

  /** The operations of one call, each addressed to player `id`. */
  function OnPlayer(id: string, ops: seq<BackendOp>): seq<BackendCall>
  {
    seq(|ops|, i requires 0 <= i < |ops| => BackendCall(id, ops[i]))
  }

  /** `order` is an iteration order of `players.values()`: every player once. */
  predicate IterationOrder(order: seq<Player>, players: map<string, Player>)
  {
    && |order| == |players|
    && (forall i :: 0 <= i < |order| ==> order[i].id in players && players[order[i].id] == order[i])
    && (forall i, j :: 0 <= i < j < |order| ==> order[i].id != order[j].id)
  }

  class AudioplayersPlugin {
    /** `mediaPlayers`. */
    var players: map<string, Player>
    /** The backend operations issued so far, in order. */
    var calls: seq<BackendCall>
    /** Everything sent with `channel.invokeMethod`, in order. */
    var channelLog: seq<Invocation>
    /** `positionUpdates`: the current callback, or null. */
    var positionUpdates: Option<Callback>
    /** The handler's message queue. */
    var pending: seq<Message>
    var seekFinish: bool
    var bookId: Option<int>
    var chapterIndex: Option<int>
    /** The `tracker` table. */
    var table: Table
    /** The database is open (false once the engine has detached). */
    var dbOpen: bool

    /** Players are stored under their ids; the table keeps its UNIQUE
        constraint; the handler holds at most one message, and only ever the
        current callback. */
    ghost predicate Valid()
      reads this
    {
      && IdsMatch(players)
      && UniqueKeys(table)
      && |pending| <= 1
      && (pending != [] ==> positionUpdates == Some(pending[0].callback))
    }

    /** `onAttachedToEngine`, over a database already holding `stored`. */
    constructor (stored: Table)
      requires UniqueKeys(stored)
      ensures Valid()
      ensures players == map[] && calls == [] && channelLog == []
      ensures positionUpdates.None? && pending == [] && !seekFinish
      ensures bookId.None? && chapterIndex.None? && table == stored && dbOpen
    {
      players := map[];
      calls := [];
      channelLog := [];
      positionUpdates := None;
      pending := [];
      seekFinish := false;
      bookId := None;
      chapterIndex := None;
      table := stored;
      dbOpen := true;
    }

    /** `onDetachedFromEngine`: closes the database and nothing else. */
    method OnDetachedFromEngine()
      requires Valid()
      modifies this
      ensures Valid()
      ensures !dbOpen
      ensures players == old(players) && calls == old(calls) && channelLog == old(channelLog)
      ensures positionUpdates == old(positionUpdates) && pending == old(pending) && seekFinish == old(seekFinish)
      ensures bookId == old(bookId) && chapterIndex == old(chapterIndex) && table == old(table)
    {
      dbOpen := false;
    }

    /** `getPlayer`: the player stored under `id`, created with the kind
        `mode` selects if there is none yet. `None` is the exception thrown
        when a player must be created and `mode` is null. */
    method GetPlayer(id: string, mode: Option<string>) returns (player: Option<Player>)
      requires Valid()
      modifies this`players
      ensures Valid()
      ensures Resolve(old(players), id, mode).ModeMissing? ==> player.None? && players == old(players)
      ensures Resolve(old(players), id, mode).Found? ==>
        player == Some(Resolve(old(players), id, mode).player) && players == Resolve(old(players), id, mode).players
    {
      if id !in players {
        if mode.None? {
          return None;
        }
        var created := Player(id, KindFor(mode.value));
        players := players[id := created];
      }
      player := Some(players[id]);
    }

    /** `onMethodCall`: resolve the player, dispatch, answer. `backend` is
        what the resolved player's backend answers. */
    method HandleMethodCall(call: MethodCall, backend: Reading) returns (response: Response)
      requires Valid()
      modifies this
      ensures Valid()
      ensures var lookup := Resolve(old(players), call.playerId, call.mode);
        if lookup.ModeMissing? then
          && response == Error(UnexpectedError, NullPointer)
          && players == old(players) && calls == old(calls)
          && bookId == old(bookId) && chapterIndex == old(chapterIndex)
        else
          var d := Dispatch(call, backend);
          && players == lookup.players
          && response == d.response
          && calls == old(calls) + OnPlayer(lookup.player.id, d.ops)
          && bookId == (if d.bookInfo.Some? then Some(d.bookInfo.value.0) else old(bookId))
          && chapterIndex == (if d.bookInfo.Some? then Some(d.bookInfo.value.1) else old(chapterIndex))
      ensures channelLog == old(channelLog) && table == old(table) && dbOpen == old(dbOpen)
      ensures positionUpdates == old(positionUpdates) && pending == old(pending) && seekFinish == old(seekFinish)
    {
      var player := GetPlayer(call.playerId, call.mode);
      if player.None? {
        response := Error(UnexpectedError, NullPointer);
        return;
      }
      var d := Dispatch(call, backend);
      calls := calls + OnPlayer(player.value.id, d.ops);
      if d.bookInfo.Some? {
        bookId := Some(d.bookInfo.value.0);
        chapterIndex := Some(d.bookInfo.value.1);
      }
      response := d.response;
    }

    /** `handleIsPlaying`: a backend reports that it started playing. */
    method HandleIsPlaying()
      requires Valid()
      modifies this
      ensures Valid()
      ensures old(positionUpdates).None? ==>
        positionUpdates == Some(Callback(bookId, chapterIndex)) && pending == [Message(Callback(bookId, chapterIndex), 0)]
      ensures old(positionUpdates).Some? ==> positionUpdates == old(positionUpdates) && pending == old(pending)
      ensures players == old(players) && calls == old(calls) && channelLog == old(channelLog) && seekFinish == old(seekFinish)
      ensures bookId == old(bookId) && chapterIndex == old(chapterIndex) && table == old(table) && dbOpen == old(dbOpen)
    {
      StartPositionUpdates();
    }

    /** `handleDuration`: a backend reports its duration. */
    method HandleDuration(player: Player, duration: int)
      requires Valid()
      modifies this`channelLog
      ensures Valid()
      ensures channelLog == old(channelLog) + [Event(OnDuration, player.id, IntValue(duration))]
    {
      channelLog := channelLog + [Event(OnDuration, player.id, IntValue(duration))];
    }

    /** `handleCompletion`: a backend reports that playback completed. */
    method HandleCompletion(player: Player)
      requires Valid()
      modifies this`channelLog
      ensures Valid()
      ensures channelLog == old(channelLog) + [Event(OnComplete, player.id, BoolValue(true))]
    {
      channelLog := channelLog + [Event(OnComplete, player.id, BoolValue(true))];
    }

    /** `handleError`: a backend reports an error. */
    method HandleError(player: Player, message: string)
      requires Valid()
      modifies this`channelLog
      ensures Valid()
      ensures channelLog == old(channelLog) + [Event(OnError, player.id, StringValue(message))]
    {
      channelLog := channelLog + [Event(OnError, player.id, StringValue(message))];
    }

    /** `handleSeekComplete`: sets the one plugin-wide flag, whichever player
        finished seeking. */
    method HandleSeekComplete(player: Player)
      requires Valid()
      modifies this`seekFinish
      ensures Valid() && seekFinish
    {
      seekFinish := true;
    }

    /** `startPositionUpdates`: builds and posts a callback capturing the
        current book information, unless one is already in place. */
    method StartPositionUpdates()
      requires Valid()
      modifies this`positionUpdates, this`pending
      ensures Valid()
      ensures old(positionUpdates).None? ==>
        positionUpdates == Some(Callback(bookId, chapterIndex)) && pending == [Message(Callback(bookId, chapterIndex), 0)]
      ensures old(positionUpdates).Some? ==> positionUpdates == old(positionUpdates) && pending == old(pending)
    {
      if positionUpdates.Some? {
        return;
      }
      var callback := Callback(bookId, chapterIndex);
      positionUpdates := Some(callback);
      pending := pending + [Message(callback, 0)];
    }

    /** `stopPositionUpdates`: drops the callback and clears the handler's
        queue. */
    method StopPositionUpdates()
      requires Valid()
      modifies this`positionUpdates, this`pending
      ensures Valid()
      ensures positionUpdates.None? && pending == []
    {
      positionUpdates := None;
      pending := [];
    }

    /** One pass of the loop in `run`: the readings of a playing player are
        sent and its position stored. */
    method VisitPlayer(player: Player, reading: Reading, callback: Callback, nonePlaying: bool)
      returns (stillNone: bool, aborted: bool)
      requires UniqueKeys(table)
      modifies this`channelLog, this`table, this`seekFinish
      ensures UniqueKeys(table)
      ensures Sweep(channelLog, table, seekFinish, stillNone, aborted)
           == Visit(Sweep(old(channelLog), old(table), old(seekFinish), nonePlaying, false), player, reading, callback, dbOpen)
    {
      stillNone, aborted := nonePlaying, false;
      if !reading.playing {
        return;
      }
      stillNone := false;
      if reading.readsThrow {
        return;
      }
      if !dbOpen {
        aborted := true;
        return;
      }
      var row := RowFor(callback, reading.position);
      InsertKeepsUnique(table, row);
      table := Insert(table, row);
      channelLog := channelLog + [Event(OnDuration, player.id, IntValue(reading.duration)),
                                  Event(OnCurrentPosition, player.id, IntValue(reading.position))];
      if seekFinish {
        channelLog := channelLog + [Event(OnSeekComplete, player.id, BoolValue(true))];
        seekFinish := false;
      }
    }

    /** The `for` loop of `run`: visits the players in `order` until the
        end, or until `db.insert` throws out of the loop. */
    method SweepPlayers(order: seq<Player>, probe: string -> Reading, callback: Callback)
      returns (nonePlaying: bool, aborted: bool)
      requires UniqueKeys(table)
      modifies this`channelLog, this`table, this`seekFinish
      ensures UniqueKeys(table)
      ensures Sweep(channelLog, table, seekFinish, nonePlaying, aborted)
           == SweepOver(Begin(old(channelLog), old(table), old(seekFinish)), order, probe, callback, dbOpen)
    {
      ghost var start := Begin(channelLog, table, seekFinish);
      nonePlaying, aborted := true, false;
      var i := 0;
      while i < |order|
        invariant 0 <= i <= |order|
        invariant Sweep(channelLog, table, seekFinish, nonePlaying, false)
               == SweepOver(start, order[..i], probe, callback, dbOpen)
        invariant UniqueKeys(table)
      {
        var player := order[i];
        assert order[..i + 1][..i] == order[..i] && order[..i + 1][i] == player;
        assert SweepOver(start, order[..i + 1], probe, callback, dbOpen)
            == Visit(SweepOver(start, order[..i], probe, callback, dbOpen), player, probe(player.id), callback, dbOpen);
        nonePlaying, aborted := VisitPlayer(player, probe(player.id), callback, nonePlaying);
        if aborted {
          // `db.insert` threw; the exception leaves `run`.
          SweepAbortedPrefix(start, order, i + 1, probe, callback, dbOpen);
          return;
        }
        i := i + 1;
      }
      assert order[..|order|] == order;
    }

    /** The handler runs the message at the head of its queue:
        `UpdateCallback.run`. `order` is the map's iteration order, `probe`
        what each backend answers, `live` which weakly held collaborators
        are still there. */
    method RunPending(order: seq<Player>, probe: string -> Reading, live: Liveness) returns (outcome: TickOutcome)
      requires Valid() && pending != []
      requires IterationOrder(order, players)
      modifies this`channelLog, this`table, this`seekFinish, this`positionUpdates, this`pending
      ensures Valid()
      ensures !AllLive(live) ==>
        && channelLog == old(channelLog) && table == old(table) && seekFinish == old(seekFinish) && pending == []
        && (if live.plugin then outcome == Stopped && positionUpdates.None?
            else outcome == Abandoned && positionUpdates == old(positionUpdates))
      ensures AllLive(live) ==>
        var cb := old(pending[0].callback);
        var s := SweepOver(Begin(old(channelLog), old(table), old(seekFinish)), order, probe, cb, dbOpen);
        && channelLog == s.events && table == s.table && seekFinish == s.seekFinish
        && (if s.aborted then outcome == Aborted && positionUpdates == old(positionUpdates) && pending == []
            else if s.nonePlaying then outcome == Stopped && positionUpdates.None? && pending == []
            else outcome == Rescheduled && positionUpdates == old(positionUpdates)
                 && pending == [Message(cb, UpdateIntervalMs)])
    {
      var callback := pending[0].callback;
      pending := pending[1..];
      if !AllLive(live) {
        if live.plugin {
          StopPositionUpdates();
          outcome := Stopped;
        } else {
          outcome := Abandoned;
        }
        return;
      }
      var nonePlaying, aborted := SweepPlayers(order, probe, callback);
      if aborted {
        outcome := Aborted;
        return;
      }
      if nonePlaying {
        StopPositionUpdates();
        outcome := Stopped;
      } else {
        pending := pending + [Message(callback, UpdateIntervalMs)];
        outcome := Rescheduled;
      }
    }
  }

  /** A client run: book information set while the poller runs does not
      change where its rows go; after the poller stops and starts again the
      new callback captures the new information. */
  method BookInfoTakesEffectOnRestart()
  {
    var plugin := new AudioplayersPlugin([]);
    var none := Arguments(None, None, None, None, None, None, None, None, None, None, None);
    var idle := Reading(false, 0, 0, false, 0);
    var first := MethodCall("setBookInfo", "p1", Some(Registry.MediaPlayerMode), none.(bookId := Some(7), chapterIndex := Some(2)));
    var response := plugin.HandleMethodCall(first, idle);
    assert response == Success(IntValue(1));
    assert plugin.players == map["p1" := Player("p1", KindFor(Registry.MediaPlayerMode))];
    plugin.HandleIsPlaying();
    assert plugin.pending == [Message(Callback(Some(7), Some(2)), 0)];

    var second := first.(args := none.(bookId := Some(8), chapterIndex := Some(3)));
    response := plugin.HandleMethodCall(second, idle);
    assert plugin.bookId == Some(8) && plugin.pending[0].callback == Callback(Some(7), Some(2));

    var order := [Player("p1", KindFor(Registry.MediaPlayerMode))];
    var outcome := plugin.RunPending(order, _ => idle, Liveness(true, true, true, true));
    assert order[..0] == [];
    assert outcome == Stopped && plugin.pending == [];
    plugin.HandleIsPlaying();
    assert plugin.pending == [Message(Callback(Some(8), Some(3)), 0)];
  }
}

/** One tick of `UpdateCallback.run`, as a function: the walk over the players
    in the map's iteration order, what each player contributes, and how the
    walk ends. The imperative loop in `Plugin` is proved equal to it. */
module Poller {
  import opened Wrappers
  import opened Events
  import opened Registry
  import opened Schema

  /** The delay before the next tick when something is playing. */
  const UpdateIntervalMs := 50

  /** An `UpdateCallback`: the book id and chapter index it captured when it
      was built (null when no book information had been set). */
  datatype Callback = Callback(bookId: Option<int>, chapterIndex: Option<int>)

  /** The row a tick writes for a player at `position`. */
  function RowFor(cb: Callback, position: int): Row
  {
    Row(cb.bookId, cb.chapterIndex, position as real)
  }

  /** What a tick threads through its loop: the channel's log, the table,
      the plugin-wide seek flag, `nonePlaying`, and whether an exception has
      left the loop. */
  datatype Sweep = Sweep(events: seq<Invocation>, table: Table, seekFinish: bool, nonePlaying: bool, aborted: bool)

  function Begin(events: seq<Invocation>, table: Table, seekFinish: bool): Sweep
  {
    Sweep(events, table, seekFinish, true, false)
  }

  /** The events a playing player produces in one tick: its duration, its
      position, and the pending seek completion if the flag is set. */
  function PlayerEvents(id: string, r: Reading, seekFinish: bool): seq<Invocation>
  {
    [Event(OnDuration, id, IntValue(r.duration)), Event(OnCurrentPosition, id, IntValue(r.position))]
      + (if seekFinish then [Event(OnSeekComplete, id, BoolValue(true))] else [])
  }

  /** One iteration of the loop, for player `p` whose backend answers `r`. A
      closed or missing database makes `db.insert` throw an exception that the
      loop does not catch. */
  function Visit(s: Sweep, p: Player, r: Reading, cb: Callback, dbOpen: bool): (v: Sweep)
    ensures s.aborted ==> v == s
    ensures |s.events| <= |v.events| && v.events[..|s.events|] == s.events
    ensures v.aborted ==> v.events == s.events && v.table == s.table && v.seekFinish == s.seekFinish
    ensures v.nonePlaying ==> s.nonePlaying
    ensures v.seekFinish ==> s.seekFinish
  {
    if s.aborted || !r.playing then s
    else if r.readsThrow then s.(nonePlaying := false)
    else if !dbOpen then s.(nonePlaying := false, aborted := true)
    else Sweep(s.events + PlayerEvents(p.id, r, s.seekFinish), Insert(s.table, RowFor(cb, r.position)), false, false, false)
  }

  /** The loop over `ps`, the players in iteration order. The log only
      grows, an abort is final, and `nonePlaying` and the seek flag can only
      be cleared. */
  function SweepOver(s: Sweep, ps: seq<Player>, probe: string -> Reading, cb: Callback, dbOpen: bool): (r: Sweep)
    ensures s.aborted ==> r == s
    ensures |s.events| <= |r.events| && r.events[..|s.events|] == s.events
    ensures r.nonePlaying ==> s.nonePlaying
    ensures r.seekFinish ==> s.seekFinish
    decreases |ps|
  {
    if ps == [] then s
    else
      var last := ps[|ps| - 1];
      var mid := SweepOver(s, ps[..|ps| - 1], probe, cb, dbOpen);
      var next := Visit(mid, last, probe(last.id), cb, dbOpen);
      assert next.events[..|s.events|] == next.events[..|mid.events|][..|s.events|];
      next
  }

  /** A player that writes a row this tick: playing, and readable. */
  predicate Writes(p: Player, probe: string -> Reading)
  {
    probe(p.id).playing && !probe(p.id).readsThrow
  }

  /** The players that write, in iteration order. */
  function Writers(ps: seq<Player>, probe: string -> Reading): (ws: seq<Player>)
    ensures |ws| <= |ps|
    decreases |ps|
  {
    if ps == [] then []
    else
      var rest := Writers(ps[..|ps| - 1], probe);
      var last := ps[|ps| - 1];
      if Writes(last, probe) then rest + [last] else rest
  }

  /** Nobody in `ps` is playing. */
  predicate NonePlaying(ps: seq<Player>, probe: string -> Reading)
  {
    forall i :: 0 <= i < |ps| ==> !probe(ps[i].id).playing
  }

  /** The events a tick should emit for writers `ws`, stated from the front:
      each writer's duration and position, and the seek completion, if one
      is pending, right after the first writer's pair only. */
  function Expected(ws: seq<Player>, probe: string -> Reading, seekFinish: bool): seq<Invocation>
    decreases |ws|
  {
    if ws == [] then []
    else PlayerEvents(ws[0].id, probe(ws[0].id), seekFinish) + Expected(ws[1..], probe, false)
  }

  /** The number of seek-complete events in a log. */
  function SeekCompletions(evs: seq<Invocation>): nat
    decreases |evs|
  {
    if evs == [] then 0
    else SeekCompletions(evs[..|evs| - 1]) + (if evs[|evs| - 1].name == OnSeekComplete then 1 else 0)
  }

  lemma {:induction false} SeekCompletionsAppend(a: seq<Invocation>, b: seq<Invocation>)
    ensures SeekCompletions(a + b) == SeekCompletions(a) + SeekCompletions(b)
    decreases |b|
  {
    if b == [] {
      assert a + b == a;
    } else {
      SeekCompletionsAppend(a, b[..|b| - 1]);
      assert (a + b)[..|a + b| - 1] == a + b[..|b| - 1];
    }
  }

  /** A writer is exactly a player of `ps` that is playing and readable. */
  lemma {:induction false} WritersMembership(ps: seq<Player>, probe: string -> Reading, p: Player)
    ensures p in Writers(ps, probe) <==> p in ps && Writes(p, probe)
    decreases |ps|
  {
    if ps != [] {
      WritersMembership(ps[..|ps| - 1], probe, p);
      assert ps == ps[..|ps| - 1] + [ps[|ps| - 1]];
    }
  }

  lemma {:induction false} ExpectedSnoc(ws: seq<Player>, w: Player, probe: string -> Reading, seekFinish: bool)
    ensures Expected(ws + [w], probe, seekFinish)
         == Expected(ws, probe, seekFinish) + PlayerEvents(w.id, probe(w.id), seekFinish && ws == [])
    decreases |ws|
  {
    if ws != [] {
      assert (ws + [w])[1..] == ws[1..] + [w];
      ExpectedSnoc(ws[1..], w, probe, false);
    }
  }

  /** The seek completion is one-shot: a tick emits it once if the flag was
      set and someone wrote, as the third event (right after the first
      writer's pair), and never otherwise. */
  lemma {:induction false} ExpectedSeekCompletions(ws: seq<Player>, probe: string -> Reading, seekFinish: bool)
    ensures SeekCompletions(Expected(ws, probe, seekFinish)) == if seekFinish && ws != [] then 1 else 0
    ensures |Expected(ws, probe, seekFinish)| == 2 * |ws| + (if seekFinish && ws != [] then 1 else 0)
    ensures seekFinish && ws != [] ==> Expected(ws, probe, seekFinish)[2] == Event(OnSeekComplete, ws[0].id, BoolValue(true))
    decreases |ws|
  {
    if ws != [] {
      ExpectedSeekCompletions(ws[1..], probe, false);
      var head := PlayerEvents(ws[0].id, probe(ws[0].id), seekFinish);
      SeekCompletionsAppend(head, Expected(ws[1..], probe, false));
      var pair := [Event(OnDuration, ws[0].id, IntValue(probe(ws[0].id).duration)),
                   Event(OnCurrentPosition, ws[0].id, IntValue(probe(ws[0].id).position))];
      var tail: seq<Invocation> := if seekFinish then [Event(OnSeekComplete, ws[0].id, BoolValue(true))] else [];
      SeekCompletionsAppend(pair, tail);
      assert SeekCompletions(pair) == 0 by {
        assert pair[..1][..0] == [];
      }
    }
  }

  /** Whether a tick found anything playing does not depend on the database
      or on read failures: `nonePlaying` survives exactly when no player is
      actually playing, and an aborted tick had found one. */
  lemma {:induction false} SweepNonePlaying(s: Sweep, ps: seq<Player>, probe: string -> Reading, cb: Callback, dbOpen: bool)
    requires !s.aborted
    ensures SweepOver(s, ps, probe, cb, dbOpen).nonePlaying <==> s.nonePlaying && NonePlaying(ps, probe)
    ensures SweepOver(s, ps, probe, cb, dbOpen).aborted ==> !SweepOver(s, ps, probe, cb, dbOpen).nonePlaying
    decreases |ps|
  {
    if ps != [] {
      var init := ps[..|ps| - 1];
      SweepNonePlaying(s, init, probe, cb, dbOpen);
      if NonePlaying(ps, probe) {
        assert NonePlaying(init, probe) by {
          forall i | 0 <= i < |init| ensures !probe(init[i].id).playing {
            assert init[i] == ps[i];
          }
        }
      }
    }
  }

  /** With the database open a tick never aborts. */
  lemma {:induction false} SweepOpenNoAbort(s: Sweep, ps: seq<Player>, probe: string -> Reading, cb: Callback)
    requires !s.aborted
    ensures !SweepOver(s, ps, probe, cb, true).aborted
    decreases |ps|
  {
    if ps != [] {
      SweepOpenNoAbort(s, ps[..|ps| - 1], probe, cb);
    }
  }

  /** With the database open, a tick never aborts; it emits exactly the
      expected events of its writers, and it clears the seek flag exactly
      when some player wrote. Players that are not playing, or whose reads
      throw, contribute nothing. */
  lemma {:induction false} SweepEvents(s: Sweep, ps: seq<Player>, probe: string -> Reading, cb: Callback)
    requires !s.aborted
    ensures !SweepOver(s, ps, probe, cb, true).aborted
    ensures SweepOver(s, ps, probe, cb, true).events == s.events + Expected(Writers(ps, probe), probe, s.seekFinish)
    ensures SweepOver(s, ps, probe, cb, true).seekFinish == (s.seekFinish && Writers(ps, probe) == [])
    decreases |ps|
  {
    if ps == [] {
      assert s.events + [] == s.events;
    } else {
      var init := ps[..|ps| - 1];
      var last := ps[|ps| - 1];
      SweepEvents(s, init, probe, cb);
      var prev := SweepOver(s, init, probe, cb, true);
      var ws := Writers(init, probe);
      assert SweepOver(s, ps, probe, cb, true) == Visit(prev, last, probe(last.id), cb, true);
      if Writes(last, probe) {
        assert Writers(ps, probe) == ws + [last];
        ExpectedSnoc(ws, last, probe, s.seekFinish);
        assert prev.seekFinish == (s.seekFinish && ws == []);
        calc {
          SweepOver(s, ps, probe, cb, true).events;
          prev.events + PlayerEvents(last.id, probe(last.id), prev.seekFinish);
          s.events + Expected(ws, probe, s.seekFinish) + PlayerEvents(last.id, probe(last.id), s.seekFinish && ws == []);
          s.events + Expected(ws + [last], probe, s.seekFinish);
        }
      } else {
        assert Writers(ps, probe) == ws;
      }
    }
  }

  /** With the database open and a key with a NULL part, nothing is ever
      replaced: each writer adds one row and no position changes. */
  lemma {:induction false} SweepTableNullKey(s: Sweep, ps: seq<Player>, probe: string -> Reading, cb: Callback)
    requires !s.aborted && RowFor(cb, 0).Key().None?
    ensures |SweepOver(s, ps, probe, cb, true).table| == |s.table| + |Writers(ps, probe)|
    ensures Positions(SweepOver(s, ps, probe, cb, true).table) == Positions(s.table)
    decreases |ps|
  {
    if ps != [] {
      var init := ps[..|ps| - 1];
      var last := ps[|ps| - 1];
      SweepTableNullKey(s, init, probe, cb);
      SweepOpenNoAbort(s, init, probe, cb);
      var prev := SweepOver(s, init, probe, cb, true);
      assert SweepOver(s, ps, probe, cb, true) == Visit(prev, last, probe(last.id), cb, true);
      if Writes(last, probe) {
        InsertPositions(prev.table, RowFor(cb, probe(last.id).position));
      }
    }
  }

  /** With the database open and a real key, the tick leaves that key holding
      the last writer's position (last writer wins across players) and every
      other key as it was. */
  lemma {:induction false} SweepTableKeyed(s: Sweep, ps: seq<Player>, probe: string -> Reading, cb: Callback)
    requires !s.aborted && RowFor(cb, 0).Key().Some?
    ensures var ws := Writers(ps, probe);
      Positions(SweepOver(s, ps, probe, cb, true).table)
        == if ws == [] then Positions(s.table)
           else Positions(s.table)[RowFor(cb, 0).Key().value := probe(ws[|ws| - 1].id).position as real]
    decreases |ps|
  {
    if ps != [] {
      var init := ps[..|ps| - 1];
      var last := ps[|ps| - 1];
      var k := RowFor(cb, 0).Key().value;
      SweepTableKeyed(s, init, probe, cb);
      SweepOpenNoAbort(s, init, probe, cb);
      var prev := SweepOver(s, init, probe, cb, true);
      var next := Visit(prev, last, probe(last.id), cb, true);
      assert SweepOver(s, ps, probe, cb, true) == next;
      if Writes(last, probe) {
        var t := probe(last.id).position as real;
        var row := RowFor(cb, probe(last.id).position);
        assert row.Key() == Some(k);
        assert next.table == Insert(prev.table, row);
        InsertPositions(prev.table, row);
        assert Positions(next.table) == Positions(prev.table)[k := t];
        var ws := Writers(init, probe);
        assert Writers(ps, probe) == ws + [last];
        if ws != [] {
          var before := probe(ws[|ws| - 1].id).position as real;
          assert Positions(prev.table) == Positions(s.table)[k := before];
          assert Positions(s.table)[k := before][k := t] == Positions(s.table)[k := t];
        }
      } else {
        assert next.table == prev.table;
        assert Writers(ps, probe) == Writers(init, probe);
      }
    }
  }

  /** A tick keeps the table's UNIQUE invariant. */
  lemma {:induction false} SweepKeepsUnique(s: Sweep, ps: seq<Player>, probe: string -> Reading, cb: Callback, dbOpen: bool)
    requires UniqueKeys(s.table)
    ensures UniqueKeys(SweepOver(s, ps, probe, cb, dbOpen).table)
    decreases |ps|
  {
    if ps != [] {
      var init := ps[..|ps| - 1];
      var last := ps[|ps| - 1];
      SweepKeepsUnique(s, init, probe, cb, dbOpen);
      var prev := SweepOver(s, init, probe, cb, dbOpen);
      InsertKeepsUnique(prev.table, RowFor(cb, probe(last.id).position));
    }
  }

  /** With the database closed or missing, the first writer aborts the tick
      before any event or row: the log, the table and the seek flag stay as
      they were, and the tick aborts exactly when someone would have written. */
  lemma {:induction false} SweepClosedDatabase(s: Sweep, ps: seq<Player>, probe: string -> Reading, cb: Callback)
    requires !s.aborted
    ensures var r := SweepOver(s, ps, probe, cb, false);
      r.events == s.events && r.table == s.table && r.seekFinish == s.seekFinish
      && (r.aborted <==> Writers(ps, probe) != [])
    decreases |ps|
  {
    if ps != [] {
      SweepClosedDatabase(s, ps[..|ps| - 1], probe, cb);
    }
  }

  /** Once the loop has aborted, the rest of the players are never visited. */
  lemma {:induction false} SweepAbortedPrefix(s: Sweep, ps: seq<Player>, i: nat, probe: string -> Reading, cb: Callback, dbOpen: bool)
    requires i <= |ps| && SweepOver(s, ps[..i], probe, cb, dbOpen).aborted
    ensures SweepOver(s, ps, probe, cb, dbOpen) == SweepOver(s, ps[..i], probe, cb, dbOpen)
    decreases |ps|
  {
    if i < |ps| {
      var init := ps[..|ps| - 1];
      assert init[..i] == ps[..i];
      SweepAbortedPrefix(s, init, i, probe, cb, dbOpen);
    } else {
      assert ps[..i] == ps;
    }
  }
}

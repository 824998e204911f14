/** The player registry: `getPlayer`'s get-or-create over the id-to-player
    map, and the choice of backend kind from the mode string. */
module Registry {
  import opened Wrappers

  const MediaPlayerMode := "PlayerMode.MEDIA_PLAYER"

  /** The two backends: `WrappedMediaPlayer` and `WrappedSoundPool`. */
  datatype Kind = MediaPlayer | SoundPool

  /** A registered player: the id it was created with and its backend kind,
      both fixed at creation. The backend's own state is not modelled. */
  datatype Player = Player(id: string, kind: Kind)

  /** What a backend answers when asked: `isActuallyPlaying()`,
      `getDuration()`, `getCurrentPosition()` (or whether those two reads
      throw `UnsupportedOperationException`), and `setRate`'s result. */
  datatype Reading = Reading(playing: bool, duration: int, position: int, readsThrow: bool, rateAnswer: int)

  /** Every player is stored under its own id. */
  predicate IdsMatch(players: map<string, Player>)
  {
    forall k :: k in players ==> players[k].id == k
  }

  /** ASCII upper-casing of one character. */
  function UpperChar(c: char): char
  {
    if 'a' <= c <= 'z' then (c as int - 32) as char else c
  }

  /** `String.equalsIgnoreCase`, character by character: equal length, and
      each pair of characters equal or equal once upper-cased. */
  predicate EqualsIgnoreCase(a: string, b: string)
    ensures a == b ==> EqualsIgnoreCase(a, b)
    ensures EqualsIgnoreCase(a, b) ==> |a| == |b|
  {
    |a| == |b| && forall i :: 0 <= i < |a| ==> a[i] == b[i] || UpperChar(a[i]) == UpperChar(b[i])
  }

  /** The upper-cased string: an independent reading of "equal ignoring case". */
  function Upper(s: string): (u: string)
    ensures |u| == |s|
    decreases |s|
  {
    if s == [] then [] else [UpperChar(s[0])] + Upper(s[1..])
  }

  lemma {:induction false} UpperAt(s: string, i: nat)
    requires i < |s|
    ensures Upper(s)[i] == UpperChar(s[i])
    decreases |s|
  {
    if i > 0 {
      UpperAt(s[1..], i - 1);
    }
  }

  /** Two strings are equal ignoring case exactly when their upper-cased
      forms are equal. */
  lemma EqualsIgnoreCaseIffUpper(a: string, b: string)
    ensures EqualsIgnoreCase(a, b) <==> Upper(a) == Upper(b)
  {
    if |a| == |b| {
      forall i | 0 <= i < |a| ensures Upper(a)[i] == UpperChar(a[i]) && Upper(b)[i] == UpperChar(b[i]) {
        UpperAt(a, i);
        UpperAt(b, i);
      }
      if Upper(a) == Upper(b) {
        forall i | 0 <= i < |a| ensures UpperChar(a[i]) == UpperChar(b[i]) {
          assert Upper(a)[i] == Upper(b)[i];
        }
      }
    }
  }

  /** The backend a new player gets for `mode`. */
  function KindFor(mode: string): (k: Kind)
  {
    if EqualsIgnoreCase(mode, MediaPlayerMode) then MediaPlayer else SoundPool
  }

  /** A new player is a MediaPlayer exactly when `mode` upper-cases to the
      same string as "PlayerMode.MEDIA_PLAYER", a SoundPool otherwise. */
  lemma KindForMediaPlayerIff(mode: string)
    ensures KindFor(mode) == MediaPlayer <==> Upper(mode) == Upper(MediaPlayerMode)
    ensures KindFor(mode) == SoundPool <==> Upper(mode) != Upper(MediaPlayerMode)
  {
    EqualsIgnoreCaseIffUpper(mode, MediaPlayerMode);
  }

  /** The two modes the Dart side sends: the media-player mode itself, and
      the low-latency mode, which (being one character shorter) gives a
      SoundPool. */
  lemma KindForKnownModes()
    ensures KindFor(MediaPlayerMode) == MediaPlayer
    ensures KindFor("PlayerMode.LOW_LATENCY") == SoundPool
  {
    KindForMediaPlayerIff("PlayerMode.LOW_LATENCY");
    assert |Upper("PlayerMode.LOW_LATENCY")| != |Upper(MediaPlayerMode)|;
  }

  /** The outcome of `getPlayer`: the (possibly extended) map and the player
      returned, or the `NullPointerException` that `mode.equalsIgnoreCase`
      throws when a new player is needed and no mode was passed. */
  datatype Lookup = Found(players: map<string, Player>, player: Player) | ModeMissing

  /** `getPlayer(playerId, mode)`. */
  function Resolve(players: map<string, Player>, id: string, mode: Option<string>): (r: Lookup)
    ensures r.ModeMissing? <==> id !in players && mode.None?
    ensures r.Found? ==> id in r.players && r.players[id] == r.player
    ensures r.Found? ==> r.players.Keys == players.Keys + {id}
    ensures r.Found? ==> forall k :: k in players ==> r.players[k] == players[k]
    ensures id in players ==> r == Found(players, players[id])
    ensures id !in players && mode.Some? ==> r.player == Player(id, KindFor(mode.value))
    ensures r.Found? && IdsMatch(players) ==> IdsMatch(r.players)
  {
    if id in players then Found(players, players[id])
    else match mode
      case None => ModeMissing
      case Some(m) => var p := Player(id, KindFor(m)); Found(players[id := p], p)
  }

  /** The map after a series of `getPlayer` calls for one id with the given
      modes (a call that throws leaves the map as it was). */
  function ResolveAll(players: map<string, Player>, id: string, modes: seq<Option<string>>): map<string, Player>
    decreases |modes|
  {
    if modes == [] then players
    else
      var r := Resolve(players, id, modes[0]);
      ResolveAll(if r.Found? then r.players else players, id, modes[1..])
  }

  /** The first mode that is not null. */
  function FirstMode(modes: seq<Option<string>>): Option<string>
    decreases |modes|
  {
    if modes == [] then None else if modes[0].Some? then modes[0] else FirstMode(modes[1..])
  }

  /** However many times an id is looked up, at most one player is ever
      created for it, with the kind chosen by the first non-null mode; an id
      already present keeps its player whatever the modes. */
  lemma {:induction false} ResolveAllCreatesOnce(players: map<string, Player>, id: string, modes: seq<Option<string>>)
    ensures id in players ==> ResolveAll(players, id, modes) == players
    ensures id !in players && FirstMode(modes).None? ==> ResolveAll(players, id, modes) == players
    ensures id !in players && FirstMode(modes).Some? ==>
      ResolveAll(players, id, modes) == players[id := Player(id, KindFor(FirstMode(modes).value))]
    decreases |modes|
  {
    if modes != [] {
      var r := Resolve(players, id, modes[0]);
      var next := if r.Found? then r.players else players;
      ResolveAllCreatesOnce(next, id, modes[1..]);
    }
  }
}

/** What `handleMethodCall` does with one call once the player is resolved:
    the backend operations it performs, in order, the response it sends, and
    the book information it records. `onMethodCall`'s catch-all turns every
    exception into an error response. */
module Commands {
  import opened Wrappers
  import opened Events
  import opened Registry

  const LowLatencyMode := "PlayerMode.LOW_LATENCY"
  const ReleaseModePrefix := "ReleaseMode."
  const UnexpectedError := "Unexpected error!"

  /** The methods the switch handles; any other name is not implemented. */
  const HandledMethods: set<string> := {
    "play", "resume", "pause", "stop", "release", "seek", "setVolume", "setUrl",
    "setBookInfo", "setPlaybackRate", "getDuration", "getCurrentPosition",
    "setReleaseMode", "earpieceOrSpeakersToggle"
  }

  /** The handled methods that answer with a value of their own rather than 1. */
  const ValueMethods: set<string> := {"setPlaybackRate", "getDuration", "getCurrentPosition"}

  /** The exceptions a call can raise. */
  datatype Exception =
    | NullPointer            // a required argument is absent, or `mode` is null where it is used
    | IndexOutOfBounds       // `substring` past the end of the release-mode name
    | IllegalArgument        // `ReleaseMode.valueOf` of an unknown name
    | UnsupportedOperation   // a backend read that the backend does not support

  /** The release modes a player knows. */
  datatype ReleaseMode = RELEASE | LOOP | STOP

  /** The arguments a call may carry; `None` is an absent argument. */
  datatype Arguments = Arguments(
    url: Option<string>, volume: Option<real>, position: Option<int>,
    respectSilence: Option<bool>, isLocal: Option<bool>, stayAwake: Option<bool>,
    bookId: Option<int>, chapterIndex: Option<int>, playbackRate: Option<real>,
    releaseMode: Option<string>, playingRoute: Option<string>)

  datatype MethodCall = MethodCall(methodName: string, playerId: string, mode: Option<string>, args: Arguments)

  /** One call into a player's backend. */
  datatype BackendOp =
    | ConfigAttributes(respectSilence: bool, stayAwake: bool)
    | SetVolume(volume: real)
    | SetUrl(url: Option<string>, isLocal: bool)
    | Seek(position: int)
    | Play
    | Pause
    | Stop
    | Release
    | SetRate(rate: real)
    | SetReleaseMode(releaseMode: ReleaseMode)
    | SetPlayingRoute(route: Option<string>)

  /** What the Dart side receives: `success(value)`, `notImplemented()`, or
      `error("Unexpected error!", …)`. */
  datatype Response = Success(value: Value) | NotImplemented | Error(code: string, failure: Exception)

  /** The effect of one dispatched call. `ops` are the backend operations
      performed before the call returned or threw. */
  datatype Dispatched = Dispatched(ops: seq<BackendOp>, response: Response, bookInfo: Option<(int, int)>)

  function Acknowledged(ops: seq<BackendOp>): Dispatched
  {
    Dispatched(ops, Success(IntValue(1)), None)
  }

  function Thrown(ops: seq<BackendOp>, f: Exception): Dispatched
  {
    Dispatched(ops, Error(UnexpectedError, f), None)
  }

  function ReleaseModeText(m: ReleaseMode): string
  {
    match m
    case RELEASE => "RELEASE"
    case LOOP => "LOOP"
    case STOP => "STOP"
  }

  /** `releaseModeName.substring("ReleaseMode.".length())`: drops the first
      twelve characters without looking at them. */
  function ReleaseModeName(s: string): (r: Result<string, Exception>)
    ensures r.Ok? <==> |ReleaseModePrefix| <= |s|
    ensures r.Ok? ==> s[..|ReleaseModePrefix|] + r.value == s
    ensures r.Err? ==> r.error == IndexOutOfBounds
  {
    if |s| < |ReleaseModePrefix| then Err(IndexOutOfBounds) else Ok(s[|ReleaseModePrefix|..])
  }

  /** `ReleaseMode.valueOf(name)`: the constant spelled exactly `name`. */
  function ReleaseModeOf(name: string): (r: Result<ReleaseMode, Exception>)
    ensures r.Ok? ==> ReleaseModeText(r.value) == name
    ensures r.Err? ==> r.error == IllegalArgument && forall m :: ReleaseModeText(m) != name
  {
    if name == "RELEASE" then Ok(RELEASE)
    else if name == "LOOP" then Ok(LOOP)
    else if name == "STOP" then Ok(STOP)
    else Err(IllegalArgument)
  }

  /** The release mode a `setReleaseMode` argument selects: the mode whose
      name follows the first twelve characters. Too short an argument throws
      an index error, an unknown name an illegal-argument error. */
  function ParseReleaseMode(s: string): (r: Result<ReleaseMode, Exception>)
    ensures r.Ok? <==> |ReleaseModePrefix| <= |s| && exists m :: ReleaseModeText(m) == s[|ReleaseModePrefix|..]
    ensures r.Ok? ==> ReleaseModeText(r.value) == s[|ReleaseModePrefix|..]
    ensures r.Err? ==> r.error == if |s| < |ReleaseModePrefix| then IndexOutOfBounds else IllegalArgument
  {
    match ReleaseModeName(s)
    case Err(f) => Err(f)
    case Ok(name) => ReleaseModeOf(name)
  }

  /** Prefix plus name reconstructs the argument, and the Dart spelling
      "ReleaseMode.X" of every mode parses back to that mode. */
  lemma ReleaseModeRoundTrip(name: string, m: ReleaseMode)
    ensures ReleaseModeName(ReleaseModePrefix + name) == Ok(name)
    ensures ParseReleaseMode(ReleaseModePrefix + ReleaseModeText(m)) == Ok(m)
  {
    assert (ReleaseModePrefix + name)[|ReleaseModePrefix|..] == name;
    assert (ReleaseModePrefix + ReleaseModeText(m))[|ReleaseModePrefix|..] == ReleaseModeText(m);
  }

  /** The prefix is never checked: any twelve characters in front of a mode's
      name select that mode, and an argument shorter than twelve characters
      fails with an index error. */
  lemma ReleaseModePrefixUnchecked(prefix: string, m: ReleaseMode, short: string)
    requires |prefix| == |ReleaseModePrefix| && |short| < |ReleaseModePrefix|
    ensures ParseReleaseMode(prefix + ReleaseModeText(m)) == Ok(m)
    ensures ParseReleaseMode(short) == Err(IndexOutOfBounds)
  {
    assert (prefix + ReleaseModeText(m))[|ReleaseModePrefix|..] == ReleaseModeText(m);
  }

  /** `play` seeks only when a position is given and the mode passed with
      this call is not, exactly and case-sensitively, the low-latency mode. */
  predicate SeeksOnPlay(position: Option<int>, mode: Option<string>)
  {
    position.Some? && mode.Some? && mode.value != LowLatencyMode
  }

  /** The `switch (call.methodName)` of `handleMethodCall`, after `getPlayer`.
      Unknown methods are not implemented and touch nothing; every failure is
      the catch-all "Unexpected error!"; only `setBookInfo` records book
      information, and it performs no backend operation. */
  function Dispatch(call: MethodCall, backend: Reading): (d: Dispatched)
    ensures d.response.NotImplemented? <==> call.methodName !in HandledMethods
    ensures call.methodName !in HandledMethods ==> d.ops == [] && d.bookInfo.None?
    ensures d.response.Error? ==> d.response.code == UnexpectedError
    ensures d.bookInfo.Some? ==> call.methodName == "setBookInfo" && d.ops == []
  {
    var a := call.args;
    if call.methodName == "play" then
      if a.volume.None? || a.respectSilence.None? || a.isLocal.None? || a.stayAwake.None? then
        Thrown([], NullPointer)
      else
        var prepared := [ConfigAttributes(a.respectSilence.value, a.stayAwake.value), SetVolume(a.volume.value), SetUrl(a.url, a.isLocal.value)];
        if a.position.Some? && call.mode.None? then Thrown(prepared, NullPointer)
        else if SeeksOnPlay(a.position, call.mode) then Acknowledged(prepared + [Seek(a.position.value), Play])
        else Acknowledged(prepared + [Play])
    else if call.methodName == "resume" then Acknowledged([Play])
    else if call.methodName == "pause" then Acknowledged([Pause])
    else if call.methodName == "stop" then Acknowledged([Stop])
    else if call.methodName == "release" then Acknowledged([Release])
    else if call.methodName == "seek" then
      if a.position.None? then Thrown([], NullPointer) else Acknowledged([Seek(a.position.value)])
    else if call.methodName == "setVolume" then
      if a.volume.None? then Thrown([], NullPointer) else Acknowledged([SetVolume(a.volume.value)])
    else if call.methodName == "setUrl" then
      if a.isLocal.None? then Thrown([], NullPointer) else Acknowledged([SetUrl(a.url, a.isLocal.value)])
    else if call.methodName == "setBookInfo" then
      if a.bookId.None? || a.chapterIndex.None? then Thrown([], NullPointer)
      else Dispatched([], Success(IntValue(1)), Some((a.bookId.value, a.chapterIndex.value)))
    else if call.methodName == "setPlaybackRate" then
      if a.playbackRate.None? then Thrown([], NullPointer)
      else Dispatched([SetRate(a.playbackRate.value)], Success(IntValue(backend.rateAnswer)), None)
    else if call.methodName == "getDuration" then
      if backend.readsThrow then Thrown([], UnsupportedOperation)
      else Dispatched([], Success(IntValue(backend.duration)), None)
    else if call.methodName == "getCurrentPosition" then
      if backend.readsThrow then Thrown([], UnsupportedOperation)
      else Dispatched([], Success(IntValue(backend.position)), None)
    else if call.methodName == "setReleaseMode" then
      if a.releaseMode.None? then Thrown([], NullPointer)
      else match ParseReleaseMode(a.releaseMode.value)
        case Err(f) => Thrown([], f)
        case Ok(m) => Acknowledged([SetReleaseMode(m)])
    else if call.methodName == "earpieceOrSpeakersToggle" then Acknowledged([SetPlayingRoute(a.playingRoute)])
    else Dispatched([], NotImplemented, None)
  }

  /** When a handled method that answers 1 fails instead: a primitive
      argument it unboxes is absent, `play` compares the null mode after
      being given a position, or the release-mode name does not parse. */
  predicate Fails(call: MethodCall)
  {
    var a := call.args;
    if call.methodName == "play" then
      a.volume.None? || a.respectSilence.None? || a.isLocal.None? || a.stayAwake.None?
      || (a.position.Some? && call.mode.None?)
    else if call.methodName == "seek" then a.position.None?
    else if call.methodName == "setVolume" then a.volume.None?
    else if call.methodName == "setUrl" then a.isLocal.None?
    else if call.methodName == "setBookInfo" then a.bookId.None? || a.chapterIndex.None?
    else if call.methodName == "setReleaseMode" then
      a.releaseMode.None? || ParseReleaseMode(a.releaseMode.value).Err?
    else false
  }

  /** The responses of handled methods: the two reads answer with the
      backend's own value (or the exception its read throws); `setPlaybackRate`
      answers what `setRate` returns, or fails when the rate is absent; every other
      handled method fails exactly in the cases `Fails` names and otherwise
      answers 1. */
  lemma DispatchResponses(call: MethodCall, backend: Reading)
    ensures var d := Dispatch(call, backend);
      && (call.methodName in HandledMethods - ValueMethods ==>
            (d.response.Error? <==> Fails(call)) && (!Fails(call) ==> d.response == Success(IntValue(1))))
      && (call.methodName == "getDuration" ==>
            d.ops == [] && d.response == (if backend.readsThrow then Error(UnexpectedError, UnsupportedOperation) else Success(IntValue(backend.duration))))
      && (call.methodName == "getCurrentPosition" ==>
            d.ops == [] && d.response == (if backend.readsThrow then Error(UnexpectedError, UnsupportedOperation) else Success(IntValue(backend.position))))
      && (call.methodName == "setPlaybackRate" && call.args.playbackRate.Some? ==>
            d == Dispatched([SetRate(call.args.playbackRate.value)], Success(IntValue(backend.rateAnswer)), None))
      && (call.methodName == "setPlaybackRate" && call.args.playbackRate.None? ==>
            d == Thrown([], NullPointer))
  {
  }

  /** The commands that take no argument the switch unboxes, and the route
      toggle, always answer 1. */
  lemma ArgumentFreeCommandsSucceed(call: MethodCall, backend: Reading)
    requires call.methodName in {"resume", "pause", "stop", "release", "earpieceOrSpeakersToggle"}
    ensures Dispatch(call, backend).response == Success(IntValue(1))
  {
    assert !Fails(call);
    DispatchResponses(call, backend);
  }

  /** A successful `play` configures, sets the volume, sets the source, seeks
      when `SeeksOnPlay`, then plays, in that order and nothing else. */
  lemma PlaySequence(call: MethodCall, backend: Reading)
    requires call.methodName == "play"
    requires call.args.volume.Some? && call.args.respectSilence.Some? && call.args.isLocal.Some? && call.args.stayAwake.Some?
    requires call.args.position.None? || call.mode.Some?
    ensures var a := call.args;
      Dispatch(call, backend) == Acknowledged(
        [ConfigAttributes(a.respectSilence.value, a.stayAwake.value), SetVolume(a.volume.value), SetUrl(a.url, a.isLocal.value)]
        + (if SeeksOnPlay(a.position, call.mode) then [Seek(a.position.value)] else [])
        + [Play])
  {
  }

  /** A `play` with a position but no mode throws after the source has been
      set: exactly configure, volume and url have happened, and no play. */
  lemma PlayWithoutModeThrowsLate(call: MethodCall, backend: Reading)
    requires call.methodName == "play" && call.mode.None? && call.args.position.Some?
    requires call.args.volume.Some? && call.args.respectSilence.Some? && call.args.isLocal.Some? && call.args.stayAwake.Some?
    ensures Dispatch(call, backend).response == Error(UnexpectedError, NullPointer)
    ensures var a := call.args;
      Dispatch(call, backend).ops ==
        [ConfigAttributes(a.respectSilence.value, a.stayAwake.value), SetVolume(a.volume.value), SetUrl(a.url, a.isLocal.value)]
  {
  }

  /** The seek test is case-sensitive while the kind test is not: every
      other spelling of the low-latency mode that differs only in case still
      gives a SoundPool, yet `play` seeks it. */
  lemma PlaySeekTestIsCaseSensitive(mode: string, position: int)
    requires EqualsIgnoreCase(mode, LowLatencyMode) && mode != LowLatencyMode
    ensures KindFor(mode) == SoundPool && KindFor(LowLatencyMode) == SoundPool
    ensures SeeksOnPlay(Some(position), Some(mode))
    ensures !SeeksOnPlay(Some(position), Some(LowLatencyMode))
  {
    assert |mode| != |MediaPlayerMode| && |LowLatencyMode| != |MediaPlayerMode|;
  }

  /** Only `setBookInfo` with both arguments present records book information,
      and it records exactly those two values. */
  lemma BookInfoOnlyFromSetBookInfo(call: MethodCall, backend: Reading)
    ensures Dispatch(call, backend).bookInfo.Some? <==>
      call.methodName == "setBookInfo" && call.args.bookId.Some? && call.args.chapterIndex.Some?
    ensures Dispatch(call, backend).bookInfo.Some? ==>
      Dispatch(call, backend).bookInfo.value == (call.args.bookId.value, call.args.chapterIndex.value)
      && Dispatch(call, backend).ops == []
  {
  }

  /** `setReleaseMode` succeeds exactly when its argument parses, and then
      sets that mode and nothing else. */
  lemma SetReleaseModeOutcome(call: MethodCall, backend: Reading)
    requires call.methodName == "setReleaseMode"
    ensures Dispatch(call, backend).response.Success? <==>
      call.args.releaseMode.Some? && ParseReleaseMode(call.args.releaseMode.value).Ok?
    ensures Dispatch(call, backend).response.Success? ==>
      Dispatch(call, backend).ops == [SetReleaseMode(ParseReleaseMode(call.args.releaseMode.value).value)]
  {
  }
}

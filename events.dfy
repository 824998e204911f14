/** What the plugin sends to the Dart side over its method channel: a method
    name and the argument map built by `buildArguments`. */
module Events {
  import opened Wrappers

  const OnDuration := "audio.onDuration"
  const OnCurrentPosition := "audio.onCurrentPosition"
  const OnComplete := "audio.onComplete"
  const OnError := "audio.onError"
  const OnSeekComplete := "audio.onSeekComplete"

  /** A value carried over the channel (Java `Integer`, `Boolean`, `String`). */
  datatype Value = IntValue(i: int) | BoolValue(b: bool) | StringValue(s: string)

  /** One `channel.invokeMethod(name, arguments)`. */
  datatype Invocation = Invocation(name: string, arguments: map<string, Value>)

  /** `buildArguments`: a two-entry map naming the player and the value. */
  function BuildArguments(playerId: string, value: Value): (args: map<string, Value>)
    ensures args.Keys == {"playerId", "value"}
    ensures ArgumentsOf(args) == Some((playerId, value))
  {
    map["playerId" := StringValue(playerId), "value" := value]
  }

  /** How a listener reads an argument map back: the player id and the value,
      when both are present and the id is a string. */
  function ArgumentsOf(args: map<string, Value>): Option<(string, Value)>
  {
    if "playerId" in args && "value" in args && args["playerId"].StringValue? then
      Some((args["playerId"].s, args["value"]))
    else None
  }

  /** The event `name` about player `playerId` carrying `value`. */
  function Event(name: string, playerId: string, value: Value): (e: Invocation)
    ensures e.name == name && ArgumentsOf(e.arguments) == Some((playerId, value))
  {
    Invocation(name, BuildArguments(playerId, value))
  }

  /** Distinct (method, player, value) triples give distinct events. */
  lemma EventInjective(m1: string, id1: string, v1: Value, m2: string, id2: string, v2: Value)
    requires Event(m1, id1, v1) == Event(m2, id2, v2)
    ensures m1 == m2 && id1 == id2 && v1 == v2
  {
    assert ArgumentsOf(Event(m1, id1, v1).arguments) == ArgumentsOf(Event(m2, id2, v2).arguments);
  }
}

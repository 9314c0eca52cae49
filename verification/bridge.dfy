/**
 * The MQTT bridge's `on_message`: classifies a message by its topic, reads
 * the JSON payload's `value`, and posts a reading to the ingest endpoint.
 * The payload is described by what `json.loads` makes of it, and a text
 * value carries what Python's `float` would make of it.
 */
module Bridge {

  import opened Wrappers
  import Text
  import Feed

  /** The `value` member of a JSON object. */
  datatype Scalar =
    | JNull
    | JBool(flag: bool)
    | JNumber(number: real)
    | JString(text: string, asFloat: Option<real>)
    | JCompound  // an array or an object

  datatype Payload =
    | Undecodable               // the bytes are not UTF-8
    | NotJson                   // UTF-8, but not JSON
    | JsonObject(value: Option<Scalar>)  // the member `value`, if present
    | JsonOther                 // a JSON array, string, number, boolean or null

  /** An exception that leaves the callback. */
  datatype Error = UnicodeDecodeError | KeyError | TypeError | IndexError

  datatype Effect =
    | LoggedNonJson             // printed and dropped
    | Ignored                   // outside the base topic
    | InvalidTopic              // printed and dropped
    | Raised(error: Error)
    | ConversionFailed          // `float` raised; swallowed by the bare except
    | Posted(body: Feed.SensorData)

  const TemperatureSuffix: string := "/temperature"
  const PressureSuffix: string := "/pressure"

  /** The topic is split on '/' and this piece is the device address. */
  const AddressSegment: nat := 3

  /** No topic ends in both suffixes: their fourth characters from the end
      differ ('t' against 's'). */
  lemma SuffixesExclusive(topic: string)
    ensures Text.EndsWith(topic, PressureSuffix) ==> !Text.EndsWith(topic, TemperatureSuffix)
  {
    if Text.EndsWith(topic, PressureSuffix) && |TemperatureSuffix| <= |topic| {
      assert topic[|topic| - 4] == topic[|topic| - |PressureSuffix|..][5] == 's';
      assert topic[|topic| - |TemperatureSuffix|..][8] == topic[|topic| - 4];
    }
  }

  /** The reading type a topic names by its suffix. */
  function KindOf(topic: string): (kind: Option<string>)
    ensures Text.EndsWith(topic, TemperatureSuffix) ==> kind == Some("Temperature")
    ensures Text.EndsWith(topic, PressureSuffix) ==> kind == Some("Pressure")
    ensures kind.None? <==> !Text.EndsWith(topic, TemperatureSuffix) && !Text.EndsWith(topic, PressureSuffix)
  {
    SuffixesExclusive(topic);
    if Text.EndsWith(topic, TemperatureSuffix) then Some("Temperature")
    else if Text.EndsWith(topic, PressureSuffix) then Some("Pressure")
    else None
  }

  /** Python's `float` applied to a JSON value. */
  function FloatOf(v: Scalar): (r: Option<real>)
    ensures v.JNumber? ==> r == Some(v.number)
    ensures v.JNull? || v.JCompound? ==> r.None?
  {
    match v
    case JNull => None
    case JBool(b) => Some(if b then 1.0 else 0.0)
    case JNumber(n) => Some(n)
    case JString(_, f) => f
    case JCompound => None
  }

  /** `on_message` for a message on `topic` with `payload`, under the base
      topic `base`, posting with the key `apiKey`. */
  function OnMessage(base: string, topic: string, payload: Payload, apiKey: Option<string>): (e: Effect)
    ensures payload.Undecodable? ==> e == Raised(UnicodeDecodeError)
    ensures payload.NotJson? ==> e == LoggedNonJson
    ensures (payload.JsonObject? || payload.JsonOther?) && !Text.StartsWith(topic, base) ==> e == Ignored
    ensures (payload.JsonObject? || payload.JsonOther?) && Text.StartsWith(topic, base) && KindOf(topic).None? ==>
      e == InvalidTopic
    ensures e.Posted? ==>
      payload.JsonObject? && payload.value.Some? && Text.StartsWith(topic, base)
      && KindOf(topic) == Some(e.body.kind)
      && Text.Piece(topic, '/', AddressSegment) == Some(e.body.address) && '/' !in e.body.address
      && FloatOf(payload.value.value) == Some(e.body.value)
      && e.body.apiKey == apiKey
    ensures e == Raised(KeyError) <==>
      Text.StartsWith(topic, base) && KindOf(topic).Some? && payload == JsonObject(None)
    ensures e == Raised(IndexError) <==>
      Text.StartsWith(topic, base) && KindOf(topic).Some? && payload.JsonObject? && payload.value.Some?
      && Text.Piece(topic, '/', AddressSegment).None?
    ensures e == ConversionFailed ==> payload.JsonObject? && payload.value.Some? && FloatOf(payload.value.value).None?
    ensures (payload.JsonObject? && payload.value.Some? && Text.StartsWith(topic, base) && KindOf(topic).Some?
             && Text.Piece(topic, '/', AddressSegment).Some? && FloatOf(payload.value.value).Some?) ==> e.Posted?
    ensures (payload.JsonObject? && payload.value.Some? && Text.StartsWith(topic, base) && KindOf(topic).Some?
             && Text.Piece(topic, '/', AddressSegment).Some? && FloatOf(payload.value.value).None?) ==> e == ConversionFailed
    ensures e == Raised(TypeError) <==> payload.JsonOther? && Text.StartsWith(topic, base) && KindOf(topic).Some?
  {
    match payload
    case Undecodable => Raised(UnicodeDecodeError)
    case NotJson => LoggedNonJson
    case JsonOther =>
      if !Text.StartsWith(topic, base) then Ignored
      else if KindOf(topic).None? then InvalidTopic
      else Raised(TypeError)
    case JsonObject(member) =>
      if !Text.StartsWith(topic, base) then Ignored
      else if KindOf(topic).None? then InvalidTopic
      else if member.None? then Raised(KeyError)
      else
        var address := Text.Piece(topic, '/', AddressSegment);
        if address.None? then Raised(IndexError)
        else
          var f := FloatOf(member.value);
          if f.None? then ConversionFailed
          else Posted(Feed.SensorData(f.value, KindOf(topic).value, address.value, apiKey))
  }

  /** Five slash-free pieces joined by '/'. */
  lemma JoinFive(a: string, b: string, c: string, d: string, e: string)
    ensures Text.Join([a, b, c, d, e], '/') == a + "/" + b + "/" + c + "/" + d + "/" + e
  {
    assert Text.Join([e], '/') == e;
    assert [d, e][1..] == [e];
    assert Text.Join([d, e], '/') == d + "/" + e;
    assert [c, d, e][1..] == [d, e];
    assert Text.Join([c, d, e], '/') == c + "/" + d + "/" + e;
    assert [b, c, d, e][1..] == [c, d, e];
    assert Text.Join([b, c, d, e], '/') == b + "/" + c + "/" + d + "/" + e;
    assert [a, b, c, d, e][1..] == [b, c, d, e];
  }

  /** A topic built as a prefix followed by a suffix ends in that suffix. */
  lemma EndsInSuffix(prefix: string, suffix: string)
    ensures Text.EndsWith(prefix + suffix, suffix)
  {
  }

  /** A device publishing under a base topic of three segments is identified
      by the segment after the base: a numeric reading on
      `base/address/temperature` (or `/pressure`) is posted with that address
      and the matching type. */
  lemma DeviceTopic(p0: string, p1: string, p2: string, address: string, temperature: bool,
                    v: real, apiKey: Option<string>)
    requires '/' !in p0 && '/' !in p1 && '/' !in p2 && '/' !in address
    ensures var base := p0 + "/" + p1 + "/" + p2;
      var topic := base + "/" + address + (if temperature then TemperatureSuffix else PressureSuffix);
      OnMessage(base, topic, JsonObject(Some(JNumber(v))), apiKey)
        == Posted(Feed.SensorData(v, if temperature then "Temperature" else "Pressure", address, apiKey))
  {
    var base := p0 + "/" + p1 + "/" + p2;
    var last := if temperature then "temperature" else "pressure";
    var suffix := if temperature then TemperatureSuffix else PressureSuffix;
    var kind := if temperature then "Temperature" else "Pressure";
    var prefix := base + "/" + address;
    var topic := prefix + suffix;
    assert topic == prefix + "/" + last;
    JoinFive(p0, p1, p2, address, last);
    var parts := [p0, p1, p2, address, last];
    assert forall i :: 0 <= i < |parts| ==> '/' !in parts[i];
    Text.SplitJoin(parts, '/');
    assert Text.Piece(topic, '/', AddressSegment) == Some(address);
    assert topic[..|base|] == base;
    EndsInSuffix(prefix, suffix);
    assert KindOf(topic) == Some(kind);
    var e := OnMessage(base, topic, JsonObject(Some(JNumber(v))), apiKey);
    assert e.Posted?;
    assert e.body == Feed.SensorData(v, kind, address, apiKey);
  }
}

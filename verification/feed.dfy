/**
 * How readings enter and leave the server: POST /api/data, gated by the
 * shared API key, appends one reading; the WebSocket relay answers a
 * subscription with the newest reading of each subscribed sensor, its
 * timestamp rendered as "%Y-%m-%d %H:%M:%S".
 */
module Feed {

  import opened Wrappers
  import Store
  import Http
  import Clock
  import Text

  /** The JSON body of POST /api/data; `apiKey` is None when the body carries null. */
  datatype SensorData = SensorData(value: real, kind: string, address: string, apiKey: Option<string>)

  /** The key the caller must present matches the configured one (a key that
      is not configured matches nothing). */
  predicate KeyMatches(data: SensorData, configuredKey: Option<string>) {
    data.apiKey.Some? && data.apiKey == configuredKey
  }

  /** POST /api/data. A null key fails validation of the body; a key that
      differs from the configured one is refused; otherwise the reading is
      stored, stamped with the current time. */
  function Ingest(db: Store.Db, data: SensorData, configuredKey: Option<string>, now: nat): (o: Http.Outcome)
    ensures !KeyMatches(data, configuredKey) ==> o.db == db && o.response.IsError()
    ensures data.apiKey.None? ==> o.response.status == Http.UnprocessableEntity
    ensures data.apiKey.Some? && !KeyMatches(data, configuredKey) ==> o.response == Http.Fail(Http.Unauthorized, "Unauthorized")
    ensures configuredKey.None? ==> o.db == db
    ensures KeyMatches(data, configuredKey) ==>
      o.db == db.(data := db.data + [Store.Reading(db.nextDataId, data.address, data.kind, data.value, now)],
                  nextDataId := db.nextDataId + 1)
    ensures KeyMatches(data, configuredKey) && db.nextDataId != 0 ==> o.response == Http.Reply(Http.OK, Http.Message("Success"))
    ensures Store.Valid(db) ==> Store.Valid(o.db)
  {
    if data.apiKey.None? then Http.Outcome(Http.Fail(Http.UnprocessableEntity, "Unprocessable Entity"), db)
    else if data.apiKey != configuredKey then Http.Outcome(Http.Fail(Http.Unauthorized, "Unauthorized"), db)
    else
      match Store.AddData(db, data.value, data.kind, data.address, now)
      case Raised(_, after) => Http.Outcome(Http.Crash(), after)
      case Done(id, db') =>
        if id != 0 then Http.Outcome(Http.Reply(Http.OK, Http.Message("Success")), db')
        else Http.Outcome(Http.Fail(Http.BadRequest, "Error"), db')
  }

  /** A reading on the WebSocket. */
  datatype WireReading = WireReading(id: int, value: real, kind: string, address: string, timestamp: string)

  /** A reading as the relay sends it: the row's fields, with the timestamp
      rendered as text that splits at its one space into the date and the
      time of day. */
  function Relay(r: Store.Reading): (w: WireReading)
    ensures w.id == r.id && w.value == r.value && w.kind == r.kind && w.address == r.address
    ensures Text.Split(w.timestamp, ' ') == [Clock.DatePart(r.timestamp), Clock.TimePart(r.timestamp)]
  {
    Clock.FormatSplits(r.timestamp);
    WireReading(r.id, r.value, r.kind, r.address, Clock.Format(r.timestamp))
  }

  /** `get_all_recent_data`: each subscribed id mapped to the newest reading
      of that sensor, or to null. */
  function Snapshot(db: Store.Db, subscribed: seq<int>): (m: map<int, Option<WireReading>>)
    ensures forall id :: id in m <==> id in subscribed
    ensures forall id :: id in m && m[id].Some? ==> id in db.sensors
    ensures forall id :: id in m ==>
      (m[id].None? <==>
        (id !in db.sensors ||
         forall i :: 0 <= i < |db.data| ==> !Store.Matches(db.data[i], db.sensors[id].address, db.sensors[id].kind)))
    ensures forall id :: id in m && m[id].Some? ==>
      var r := Store.GetRecentData(db, id).value;
      m[id].value == Relay(r) && r in db.data && Store.Matches(r, db.sensors[id].address, db.sensors[id].kind)
      && forall i :: 0 <= i < |db.data| && Store.Matches(db.data[i], db.sensors[id].address, db.sensors[id].kind) ==>
           db.data[i].timestamp <= r.timestamp
  {
    map id | id in subscribed :: match Store.GetRecentData(db, id) case None => None case Some(r) => Some(Relay(r))
  }

  /** One turn of the relay loop: a message is sent exactly when the
      subscription is non-empty. */
  function Tick(db: Store.Db, subscribed: seq<int>): (sent: Option<map<int, Option<WireReading>>>)
    ensures sent.Some? <==> |subscribed| > 0
    ensures sent.Some? ==> sent.value.Keys == set i | 0 <= i < |subscribed| :: subscribed[i]
  {
    if |subscribed| == 0 then None
    else
      var data := Snapshot(db, subscribed);
      assert subscribed[0] in data;
      if data != map[] then Some(data) else None
  }
}

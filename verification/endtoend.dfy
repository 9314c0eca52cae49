/**
 * The path of one reading through the system: a device's message accepted
 * by the MQTT bridge, posted to the ingest endpoint, reported by the relay's
 * next snapshot and plotted on the sensor's dashboard chart.
 */
module EndToEnd {

  import opened Wrappers
  import Store
  import Feed
  import Bridge
  import Clock
  import Dashboard

  /** A reading ingested at `now`, when no stored reading is newer, is the
      newest reading of every sensor registered with its address and type. */
  lemma IngestedIsNewest(db: Store.Db, data: Feed.SensorData, configuredKey: Option<string>, now: nat, sensorId: int)
    requires Feed.KeyMatches(data, configuredKey)
    requires sensorId in db.sensors
    requires db.sensors[sensorId].address == data.address && db.sensors[sensorId].kind == data.kind
    requires forall i :: 0 <= i < |db.data| ==> db.data[i].timestamp <= now
    ensures var r := Store.GetRecentData(Feed.Ingest(db, data, configuredKey, now).db, sensorId);
      r.Some? && r.value.timestamp == now && r.value.address == data.address && r.value.kind == data.kind
  {
    var db' := Feed.Ingest(db, data, configuredKey, now).db;
    var last := |db'.data| - 1;
    assert db'.data[last].timestamp == now;
    assert Store.Matches(db'.data[last], data.address, data.kind);
    assert forall i :: 0 <= i < |db'.data| ==> db'.data[i].timestamp <= now;
  }

  /** The relay renders a reading's timestamp so that the dashboard labels it
      with its time of day. */
  lemma RelayedLabel(r: Store.Reading)
    ensures Dashboard.LabelOf(Feed.Relay(r).timestamp) == Dashboard.Str(Clock.TimePart(r.timestamp))
  {
  }

  /** A device under a three-segment base topic publishes a number; the
      bridge posts it with the shared key; a sensor registered with the
      device's address and the topic's type then reports it in the relay's
      next snapshot, stamped `now`, and its chart ends with the time of day
      of `now`. */
  lemma DeviceReadingReachesChart(p0: string, p1: string, p2: string, address: string, temperature: bool,
                                  v: real, key: string, db: Store.Db, sensorId: int, now: nat,
                                  chart: Dashboard.Chart)
    requires '/' !in p0 && '/' !in p1 && '/' !in p2 && '/' !in address
    requires sensorId in db.sensors && db.sensors[sensorId].address == address
    requires db.sensors[sensorId].kind == (if temperature then "Temperature" else "Pressure")
    requires forall i :: 0 <= i < |db.data| ==> db.data[i].timestamp <= now
    ensures var base := p0 + "/" + p1 + "/" + p2;
      var topic := base + "/" + address + (if temperature then Bridge.TemperatureSuffix else Bridge.PressureSuffix);
      var e := Bridge.OnMessage(base, topic, Bridge.JsonObject(Some(Bridge.JNumber(v))), Some(key));
      e.Posted? &&
      var db' := Feed.Ingest(db, e.body, Some(key), now).db;
      var snapshot := Feed.Snapshot(db', [sensorId]);
      sensorId in snapshot && snapshot[sensorId].Some?
      && snapshot[sensorId].value.timestamp == Clock.Format(now)
      && snapshot[sensorId].value.address == address
      && Dashboard.LastLabel(Dashboard.Update(chart, snapshot[sensorId].value).labels)
         == Dashboard.Str(Clock.TimePart(now))
  {
    var base := p0 + "/" + p1 + "/" + p2;
    var topic := base + "/" + address + (if temperature then Bridge.TemperatureSuffix else Bridge.PressureSuffix);
    Bridge.DeviceTopic(p0, p1, p2, address, temperature, v, Some(key));
    var e := Bridge.OnMessage(base, topic, Bridge.JsonObject(Some(Bridge.JNumber(v))), Some(key));
    IngestedIsNewest(db, e.body, Some(key), now, sensorId);
    var db' := Feed.Ingest(db, e.body, Some(key), now).db;
    var r := Store.GetRecentData(db', sensorId).value;
    var snapshot := Feed.Snapshot(db', [sensorId]);
    assert snapshot[sensorId] == Some(Feed.Relay(r));
    RelayedLabel(r);
  }
}

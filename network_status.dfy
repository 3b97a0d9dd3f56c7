/**
 * Network status of the field device: its RSSI (in dBm) and a link quality
 * in percent. The device is asked for its own JSON; when that fails a mock
 * reading is produced instead.
 *
 * The HTTP request, the random RSSI draw and the wall clock are not
 * modelled as effects: the device's reply, the drawn RSSI and the current
 * time in whole seconds are parameters.
 */
module NetworkStatus {

  /** A JSON value as decoded from the device's reply. */
  datatype Json =
    | JNull
    | JBool(b: bool)
    | JInt(i: int)
    | JReal(x: real)
    | JString(s: string)
    | JArray(items: seq<Json>)
    | JObject(fields: map<string, Json>)

  /** The body of an HTTP reply: either JSON, or text `json()` cannot decode. */
  datatype Body = Parsed(json: Json) | Unparseable

  /** Outcome of the GET request: it raised (timeout, refused, ...) or it answered. */
  datatype Reply = Raised | Answered(status: int, body: Body)

  /** Bounds of the RSSI that the mock draws, inclusive. */
  const MockRssiLow: int := -86
  const MockRssiHigh: int := -54

  function Min(a: int, b: int): int { if a <= b then a else b }
  function Max(a: int, b: int): int { if a >= b then a else b }

  /** Quality in percent: RSSI clamped to [-100, -50], shifted and doubled. */
  function Quality(rssi: int): (q: int)
    ensures 0 <= q <= 100
    ensures q % 2 == 0
    ensures rssi <= -100 ==> q == 0
    ensures rssi >= -50 ==> q == 100
    ensures -100 <= rssi <= -50 ==> q == 2 * (rssi + 100)
  {
    (Min(Max(rssi, -100), -50) + 100) * 2
  }

  /** Quality never drops when the signal gets stronger. */
  lemma QualityMonotone(a: int, b: int)
    requires a <= b
    ensures Quality(a) <= Quality(b)
  {
  }

  /** `_mock`: a reading built from a drawn RSSI and the current time. */
  function Mock(rssi: int, now: int): (d: map<string, Json>)
    requires MockRssiLow <= rssi <= MockRssiHigh
    ensures d.Keys == {"rssi", "quality", "timestamp"}
    ensures d["rssi"] == JInt(rssi)
    ensures d["timestamp"] == JInt(now)
    ensures d["quality"] == JInt(2 * (rssi + 100))
    ensures 28 <= d["quality"].i <= 92
  {
    map["rssi" := JInt(rssi), "quality" := JInt(Quality(rssi)), "timestamp" := JInt(now)]
  }

  /** `dict.setdefault(key, value)`: an existing entry wins, a missing one is added. */
  function SetDefault(m: map<string, Json>, key: string, value: Json): (r: map<string, Json>)
    ensures r.Keys == m.Keys + {key}
    ensures forall k :: k in m ==> r[k] == m[k]
    ensures key !in m ==> r[key] == value
  {
    if key in m then m else m[key := value]
  }

  /**
   * `get_network_strength`: the device's JSON object on status 200, with a
   * timestamp filled in if it had none; mock data on any other status, on a
   * body that is not a JSON object (decoding or `setdefault` raises), or
   * when the request itself raised.
   */
  function GetNetworkStrength(reply: Reply, rssi: int, now: int): (d: map<string, Json>)
    requires MockRssiLow <= rssi <= MockRssiHigh
    ensures reply.Answered? && reply.status == 200 && reply.body.Parsed? && reply.body.json.JObject? ==>
              var fields := reply.body.json.fields;
              && d.Keys == fields.Keys + {"timestamp"}
              && (forall k :: k in fields ==> d[k] == fields[k])
              && ("timestamp" !in fields ==> d["timestamp"] == JInt(now))
    ensures !(reply.Answered? && reply.status == 200 && reply.body.Parsed? && reply.body.json.JObject?) ==>
              d == Mock(rssi, now)
  {
    match reply
    case Raised => Mock(rssi, now)
    case Answered(status, body) =>
      if status == 200 then
        match body
        case Parsed(JObject(fields)) => SetDefault(fields, "timestamp", JInt(now))
        case _ => Mock(rssi, now)
      else
        Mock(rssi, now)
  }

  /** Whatever the reply, the result carries a timestamp. */
  lemma AlwaysTimestamped(reply: Reply, rssi: int, now: int)
    requires MockRssiLow <= rssi <= MockRssiHigh
    ensures "timestamp" in GetNetworkStrength(reply, rssi, now)
  {
  }
}

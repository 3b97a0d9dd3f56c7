/**
 * The `/alerts` endpoint of the bridge server: three sensor readings are
 * compared against fixed critical thresholds and classified as a red
 * (critical) alert, a yellow (warning) alert listing the elevated sensors,
 * or "204 No Content" when the system is normal.
 *
 * Readings are modelled as `real`; the sensor data dictionary is a map from
 * its JSON key to the reading. Float formatting inside the messages is not
 * modelled: a message is its fixed text with the sensor names but without
 * the formatted numbers.
 */
module Alerts {

  /** The three monitored sensors, in the order the warnings list them. */
  datatype Sensor = Temperature | Gas | Vibration

  const TempCriticalThreshold: real := 95.0
  const GasCriticalThreshold: real := 120.0
  const VibCriticalThreshold: real := 0.8

  const RedPrefix: string := "CRITICAL SYSTEM FAILURE: ALL Sensors Exceeded Thresholds!"
  const YellowPrefix: string := "WARNING: Elevated Sensor Readings:"
  const YellowSuffix: string := ". Monitor system."

  /** One entry of the yellow warnings list: which sensor is high, and its reading. */
  datatype Warning = Warning(sensor: Sensor, reading: real)

  /** What the endpoint answers: a red or yellow JSON alert, or HTTP 204. */
  datatype Response =
    | Red(message: string)
    | Yellow(warnings: seq<Warning>, message: string)
    | NoContent

  /** The dictionary key under which a sensor's reading arrives. */
  function Key(s: Sensor): string
  {
    match s
    case Temperature => "temperature"
    case Gas => "gas_ppm"
    case Vibration => "vibration_g"
  }

  /** Position of a sensor in the fixed warning order. */
  function Rank(s: Sensor): nat
  {
    match s
    case Temperature => 0
    case Gas => 1
    case Vibration => 2
  }

  function Threshold(s: Sensor): (t: real)
    ensures t > 0.0
  {
    match s
    case Temperature => TempCriticalThreshold
    case Gas => GasCriticalThreshold
    case Vibration => VibCriticalThreshold
  }

  /** `data.get(key, 0)`: a missing reading counts as zero. */
  function Reading(data: map<string, real>, s: Sensor): real
  {
    if Key(s) in data then data[Key(s)] else 0.0
  }

  /**
   * A reading is high only when it is strictly above its threshold: one at
   * the threshold is not, and a missing one (read as 0) never is.
   */
  predicate IsHigh(data: map<string, real>, s: Sensor)
    ensures IsHigh(data, s) <==> Key(s) in data && data[Key(s)] > Threshold(s)
    ensures Reading(data, s) <= Threshold(s) ==> !IsHigh(data, s)
    ensures Key(s) !in data ==> !IsHigh(data, s)
  {
    Reading(data, s) > Threshold(s)
  }

  /** The HTTP status the endpoint answers with. */
  function StatusCode(r: Response): (code: int)
    ensures code == 204 <==> r.NoContent?
    ensures code == 200 <==> (r.Red? || r.Yellow?)
  {
    if r.NoContent? then 204 else 200
  }

  /** The `severity` field of a JSON alert. */
  function Severity(r: Response): (sev: string)
    requires !r.NoContent?
    ensures r.Red? <==> sev == "red"
    ensures r.Yellow? <==> sev == "yellow"
  {
    if r.Red? then "red" else "yellow"
  }

  /** Every warning label names a sensor after "High ". */
  function Label(s: Sensor): (l: string)
    ensures "High " <= l
  {
    match s
    case Temperature => "High Temp"
    case Gas => "High Gas"
    case Vibration => "High Vib"
  }

  /** `', '.join(...)` over the warning labels: first label first, last label last. */
  function JoinLabels(ws: seq<Warning>): (j: string)
    ensures j == [] <==> ws == []
    ensures ws != [] ==> Label(ws[0].sensor) <= j
  {
    if |ws| == 0 then ""
    else if |ws| == 1 then Label(ws[0].sensor)
    else Label(ws[0].sensor) + ", " + JoinLabels(ws[1..])
  }

  /** The joined labels end with the label of the last warning. */
  lemma {:induction false} JoinLabelsEndsWithLast(ws: seq<Warning>)
    requires ws != []
    ensures var last := Label(ws[|ws| - 1].sensor);
            |last| <= |JoinLabels(ws)| && JoinLabels(ws)[|JoinLabels(ws)| - |last|..] == last
  {
    if |ws| > 1 {
      var rest := ws[1..];
      assert rest[|rest| - 1] == ws[|ws| - 1];
      JoinLabelsEndsWithLast(rest);
      SuffixOfAppend(Label(ws[0].sensor) + ", ", JoinLabels(rest), |Label(ws[|ws| - 1].sensor)|);
    }
  }

  /** A suffix of `b` no longer than `b` is also the suffix of `a + b`. */
  lemma SuffixOfAppend(a: string, b: string, n: nat)
    requires n <= |b|
    ensures (a + b)[|a + b| - n..] == b[|b| - n..]
  {
  }

  function YellowMessage(ws: seq<Warning>): (m: string)
    ensures YellowPrefix <= m
    ensures m[|m| - |YellowSuffix|..] == YellowSuffix
  {
    var m := YellowPrefix + " " + JoinLabels(ws) + YellowSuffix;
    assert m[|m| - |YellowSuffix|..] == YellowSuffix;
    m
  }

  /**
   * The warnings list of a yellow alert for these readings: one warning per
   * high sensor and none for the others, each carrying its reading, in the
   * order temperature, gas, vibration.
   */
  predicate WarnsExactly(data: map<string, real>, ws: seq<Warning>)
  {
    && (forall s :: IsHigh(data, s) <==> exists i :: 0 <= i < |ws| && ws[i].sensor == s)
    && (forall i :: 0 <= i < |ws| ==> ws[i].reading == Reading(data, ws[i].sensor))
    && (forall i, j :: 0 <= i < j < |ws| ==> Rank(ws[i].sensor) < Rank(ws[j].sensor))
  }

  /** The yellow branch's list, built by conditional appends in the fixed order. */
  method CollectWarnings(data: map<string, real>) returns (warnings: seq<Warning>)
    ensures WarnsExactly(data, warnings)
    ensures warnings == [] <==> forall s :: !IsHigh(data, s)
  {
    var currentTemp := Reading(data, Temperature);
    var currentGas := Reading(data, Gas);
    var currentVib := Reading(data, Vibration);

    var tempIsHigh := currentTemp > TempCriticalThreshold;
    var gasIsHigh := currentGas > GasCriticalThreshold;
    var vibIsHigh := currentVib > VibCriticalThreshold;

    warnings := [];
    if tempIsHigh {
      warnings := warnings + [Warning(Temperature, currentTemp)];
    }
    if gasIsHigh {
      warnings := warnings + [Warning(Gas, currentGas)];
    }
    if vibIsHigh {
      warnings := warnings + [Warning(Vibration, currentVib)];
    }
    // where each high sensor landed in the list
    if tempIsHigh { assert warnings[0].sensor == Temperature; }
    if gasIsHigh { assert warnings[if tempIsHigh then 1 else 0].sensor == Gas; }
    if vibIsHigh { assert warnings[|warnings| - 1].sensor == Vibration; }
    if warnings != [] { assert IsHigh(data, warnings[0].sensor); }
  }

  /**
   * `get_alert_status`: classify the readings. The red and normal branches
   * are boolean tests; the yellow branch lists the high sensors.
   */
  method GetAlertStatus(data: map<string, real>) returns (r: Response)
    // exactly one of the three outcomes, decided by the three strict tests
    ensures r.Red? <==> IsHigh(data, Temperature) && IsHigh(data, Gas) && IsHigh(data, Vibration)
    ensures r.NoContent? <==> !IsHigh(data, Temperature) && !IsHigh(data, Gas) && !IsHigh(data, Vibration)
    ensures r.Yellow? <==> (exists s :: IsHigh(data, s)) && (exists s :: !IsHigh(data, s))
    // one warning per high sensor, carrying its reading, in the fixed order
    ensures r.Yellow? ==> WarnsExactly(data, r.warnings)
    // the HTTP status and the severity field of the JSON alert
    ensures StatusCode(r) == (if forall s :: !IsHigh(data, s) then 204 else 200)
    ensures !r.NoContent? ==> (Severity(r) == "red" <==> forall s :: IsHigh(data, s))
    ensures !r.NoContent? ==> (Severity(r) == "yellow" <==> exists s :: !IsHigh(data, s))
    // the fixed message texts
    ensures r.Red? ==> RedPrefix <= r.message
    ensures r.Yellow? ==> YellowPrefix <= r.message && r.message == YellowMessage(r.warnings)
  {
    var tempIsHigh := Reading(data, Temperature) > TempCriticalThreshold;
    var gasIsHigh := Reading(data, Gas) > GasCriticalThreshold;
    var vibIsHigh := Reading(data, Vibration) > VibCriticalThreshold;

    if tempIsHigh && gasIsHigh && vibIsHigh {
      assert forall s :: IsHigh(data, s);
      r := Red(RedPrefix);
    } else if tempIsHigh || gasIsHigh || vibIsHigh {
      var warnings := CollectWarnings(data);
      r := Yellow(warnings, YellowMessage(warnings));
    } else {
      assert forall s :: !IsHigh(data, s);
      r := NoContent;
    }
  }
}

/** ml/task_workers.py: window statistics, outlier clipping, the sigma rule and the trend line, over
    exact reals. The square root is a parameter; IsSqrt says all that is assumed of it. */
module TaskWorkers {
  import opened Wrappers

  /** A JSON value; Python's isinstance(val, (int, float)) also holds of booleans. */
  datatype Value = Number(x: real) | Boolean(b: bool) | Missing | Other(text: string)

  predicate Numeric(v: Value) { v.Number? || v.Boolean? }

  function AsReal(v: Value): real
    requires Numeric(v)
  {
    match v
    case Number(x) => x
    case Boolean(b) => if b then 1.0 else 0.0
  }

  type Reading = map<string, Value>

  ghost predicate IsSqrt(sqrt: real -> real) {
    forall x :: x >= 0.0 ==> sqrt(x) >= 0.0 && sqrt(x) * sqrt(x) == x
  }

  function Sum(s: seq<real>): real {
    if s == [] then 0.0 else Sum(s[..|s| - 1]) + s[|s| - 1]
  }

  function SquaredDeviations(s: seq<real>, mean: real): real {
    if s == [] then 0.0
    else SquaredDeviations(s[..|s| - 1], mean) + (s[|s| - 1] - mean) * (s[|s| - 1] - mean)
  }

  function Mean(values: seq<real>): real
    requires values != []
  {
    Sum(values) / |values| as real
  }

  function Variance(values: seq<real>): real
    requires values != []
  {
    if |values| > 1 then SquaredDeviations(values, Mean(values)) / |values| as real else 0.0
  }

  datatype Stats = Stats(mean: real, std: real, values: seq<real>)

  /** `s` describes the window values: std is the non-negative root of the variance. */
  ghost predicate Describes(s: Stats, values: seq<real>) {
    && values != [] && s.values == values && s.mean == Mean(values)
    && s.std >= 0.0 && s.std * s.std == Variance(values)
  }

  /** What one reading adds to the values of one field. */
  function OwnValues(reading: Reading, key: string): seq<real> {
    if key in reading && Numeric(reading[key]) then [AsReal(reading[key])] else []
  }

  /** The numeric values of one field, in window order. */
  function FieldValues(window: seq<Reading>, key: string): seq<real> {
    if window == [] then []
    else FieldValues(window[..|window| - 1], key) + OwnValues(window[|window| - 1], key)
  }

  function FieldOf(fields: map<string, seq<real>>, key: string): seq<real> {
    if key in fields then fields[key] else []
  }

  /** `fields` lists exactly the fields with a numeric value in the window, each with all its values. */
  ghost predicate Collected(fields: map<string, seq<real>>, window: seq<Reading>) {
    && (forall k :: FieldOf(fields, k) == FieldValues(window, k))
    && (forall k :: k in fields ==> fields[k] != [])
  }

  lemma {:induction false} DeviationsNotNegative(s: seq<real>, mean: real)
    ensures SquaredDeviations(s, mean) >= 0.0
  {
    if s != [] {
      DeviationsNotNegative(s[..|s| - 1], mean);
      SquareNotNegative(s[|s| - 1] - mean);
    }
  }

  lemma SquareNotNegative(x: real)
    ensures x * x >= 0.0
  {
  }

  /** The inner loop of _field_stats: append one reading's numeric values. */
  method AddReading(fields: map<string, seq<real>>, reading: Reading) returns (grown: map<string, seq<real>>)
    requires forall k :: k in fields ==> fields[k] != []
    ensures forall k :: FieldOf(grown, k) == FieldOf(fields, k) + OwnValues(reading, k)
    ensures forall k :: k in grown ==> grown[k] != []
  {
    grown := fields;
    var todo := reading.Keys;
    while todo != {}
      invariant todo <= reading.Keys
      invariant forall k ::
        FieldOf(grown, k) == FieldOf(fields, k) + if k in todo then [] else OwnValues(reading, k)
      invariant forall k :: k in grown ==> grown[k] != []
      decreases todo
    {
      var key :| key in todo;
      if Numeric(reading[key]) {
        grown := grown[key := FieldOf(grown, key) + [AsReal(reading[key])]];
      }
      todo := todo - {key};
    }
  }

  /** The values of all numeric fields, read off the window one reading at a time. */
  method CollectFields(window: seq<Reading>) returns (fields: map<string, seq<real>>)
    ensures Collected(fields, window)
  {
    fields := map[];
    for i := 0 to |window|
      invariant Collected(fields, window[..i])
    {
      assert window[..i + 1][..i] == window[..i];
      fields := AddReading(fields, window[i]);
    }
    assert window[..|window|] == window;
  }

  function StatsFor(values: seq<real>, sqrt: real -> real): Stats
    requires values != []
  {
    Stats(Mean(values), sqrt(Variance(values)), values)
  }

  lemma StatsForDescribes(values: seq<real>, sqrt: real -> real)
    requires values != [] && IsSqrt(sqrt)
    ensures Describes(StatsFor(values, sqrt), values)
  {
    VarianceNotNegative(values);
  }

  lemma VarianceNotNegative(values: seq<real>)
    requires values != []
    ensures Variance(values) >= 0.0
  {
    DeviationsNotNegative(values, Mean(values));
  }

  /** _field_stats */
  method FieldStats(window: seq<Reading>, sqrt: real -> real) returns (stats: map<string, Stats>)
    requires IsSqrt(sqrt)
    ensures forall k :: k in stats <==> FieldValues(window, k) != []
    ensures forall k :: k in stats ==> Describes(stats[k], FieldValues(window, k))
  {
    var fields := CollectFields(window);
    assert forall k :: k in fields ==> FieldOf(fields, k) == fields[k];
    stats := map[];
    var todo := fields.Keys;
    while todo != {}
      invariant todo <= fields.Keys
      invariant forall k :: k in stats <==> k in fields && k !in todo
      invariant forall k :: k in stats ==> Describes(stats[k], fields[k])
      decreases todo
    {
      var key :| key in todo;
      StatsForDescribes(fields[key], sqrt);
      stats := stats[key := StatsFor(fields[key], sqrt)];
      todo := todo - {key};
    }
  }

  // ---- run_clean and run_anomaly ----

  function Max(a: real, b: real): real { if a >= b then a else b }
  function Min(a: real, b: real): real { if a <= b then a else b }
  function Abs(a: real): real { if a >= 0.0 then a else -a }

  /** The 3-sigma clip of run_clean. */
  function Clip(s: Stats, v: real): real {
    if s.std > 0.0 then Max(s.mean - 3.0 * s.std, Min(s.mean + 3.0 * s.std, v)) else v
  }

  datatype Severity = Medium | High | Critical

  /** The sigma rule of run_anomaly. */
  function Judge(s: Stats, v: real): Option<Severity> {
    if s.std == 0.0 then None
    else
      var z := Abs(v - s.mean) / s.std;
      if z > 2.5 then Some(if z > 4.0 then Critical else if z > 3.0 then High else Medium) else None
  }

  datatype Status = Ok | Warning | CriticalStatus

  /** run_anomaly: the flagged fields with their severity, and the overall status. */
  method RunAnomaly(data: Reading, window: seq<Reading>, sqrt: real -> real)
    returns (anomalies: map<string, Severity>, status: Status)
    requires IsSqrt(sqrt)
    ensures forall k :: k in anomalies ==>
              k in data && Numeric(data[k]) && FieldValues(window, k) != []
              && exists s :: Describes(s, FieldValues(window, k)) && Judge(s, AsReal(data[k])) == Some(anomalies[k])
    ensures forall k :: k in data && Numeric(data[k]) && FieldValues(window, k) != [] && k !in anomalies ==>
              exists s :: Describes(s, FieldValues(window, k)) && Judge(s, AsReal(data[k])) == None
    ensures status == Ok <==> anomalies == map[]
    ensures status == CriticalStatus <==> exists k :: k in anomalies && anomalies[k] == Critical
  {
    var stats := FieldStats(window, sqrt);
    anomalies := map[];
    var todo := data.Keys;
    while todo != {}
      invariant todo <= data.Keys
      invariant forall k :: k in anomalies ==>
        && k in data && k !in todo && Numeric(data[k]) && k in stats
        && Judge(stats[k], AsReal(data[k])) == Some(anomalies[k])
      invariant forall k :: k in data && k !in todo && Numeric(data[k]) && k in stats && k !in anomalies ==>
        Judge(stats[k], AsReal(data[k])) == None
      decreases todo
    {
      var key :| key in todo;
      todo := todo - {key};
      if Numeric(data[key]) && key in stats {
        var verdict := Judge(stats[key], AsReal(data[key]));
        if verdict.Some? {
          anomalies := anomalies[key := verdict.value];
        }
      }
    }
    if anomalies == map[] {
      status := Ok;
    } else if exists k :: k in anomalies && anomalies[k] == Critical {
      status := CriticalStatus;
    } else {
      status := Warning;
    }
  }

  function CleanedValue(val: Value, key: string, stats: map<string, Stats>): Value {
    match val
    case Missing => Number(if key in stats then stats[key].mean else 0.0)
    case Other(_) => val
    case _ => Number(if key in stats then Clip(stats[key], AsReal(val)) else AsReal(val))
  }

  /** What run_clean owes a field: a missing value becomes the window mean (0 without one), a number is
      clipped, anything else is kept. */
  ghost predicate Cleaned(before: Value, after: Value, values: seq<real>) {
    match before
    case Missing => after == Number(if values == [] then 0.0 else Mean(values))
    case Other(_) => after == before
    case _ =>
      if values == [] then after == Number(AsReal(before))
      else exists s :: Describes(s, values) && after == Number(Clip(s, AsReal(before)))
  }

  /** The branches of run_clean for one field. */
  method CleanValue(val: Value, key: string, stats: map<string, Stats>) returns (cleaned: Value)
    ensures cleaned == CleanedValue(val, key, stats)
  {
    if val.Missing? {
      cleaned := Number(if key in stats then stats[key].mean else 0.0);
    } else if Numeric(val) {
      var mean := if key in stats then stats[key].mean else AsReal(val);
      var std := if key in stats then stats[key].std else 0.0;
      if std > 0.0 {
        var low, high := mean - 3.0 * std, mean + 3.0 * std;
        cleaned := Number(Max(low, Min(high, AsReal(val))));
      } else {
        cleaned := Number(AsReal(val));
      }
    } else {
      cleaned := val;
    }
  }

  /** run_clean */
  method RunClean(data: Reading, window: seq<Reading>, sqrt: real -> real) returns (cleaned: Reading)
    requires IsSqrt(sqrt)
    ensures cleaned.Keys == data.Keys
    ensures forall k :: k in data ==> Cleaned(data[k], cleaned[k], FieldValues(window, k))
  {
    var stats := FieldStats(window, sqrt);
    cleaned := map[];
    var todo := data.Keys;
    while todo != {}
      invariant todo <= data.Keys && cleaned.Keys == data.Keys - todo
      invariant forall k :: k in cleaned ==> cleaned[k] == CleanedValue(data[k], k, stats)
      decreases todo
    {
      var key :| key in todo;
      todo := todo - {key};
      var value := CleanValue(data[key], key, stats);
      cleaned := cleaned[key := value];
    }
    forall k | k in data
      ensures Cleaned(data[k], cleaned[k], FieldValues(window, k))
    {
      CleanedValueIsCleaned(data[k], k, stats, FieldValues(window, k));
    }
  }

  lemma CleanedValueIsCleaned(val: Value, key: string, stats: map<string, Stats>, values: seq<real>)
    requires key in stats <==> values != []
    requires key in stats ==> Describes(stats[key], values)
    ensures Cleaned(val, CleanedValue(val, key, stats), values)
  {
  }
}

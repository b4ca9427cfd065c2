/** The storage model of a tracked metric (pkg/tracking/store/sql/models/metrics.go):
    the `Metric` history row, the two adapters that build it from a domain
    metric and from a wire message, the sanitisation of non-finite values
    they share, and the projection of a row onto a `LatestMetric` row. */
module Models {
  import opened Wrappers
  import opened Float64

  /** Go's `int64`. */
  newtype int64 = x: int | -0x8000_0000_0000_0000 <= x < 0x8000_0000_0000_0000

  /** A row of the `metrics` table. */
  datatype Metric = Metric(
    Key: string,
    Value: Float64,
    Timestamp: int64,
    RunID: string,
    Step: int64,
    IsNan: bool)
  {
    /** The `latest_metrics` row derived from this row: a copy of all six fields. */
    function NewLatestMetricFromProto(): (l: LatestMetric)
      ensures l.RunID == RunID && l.Key == Key && l.Timestamp == Timestamp && l.Step == Step
      ensures l.Value == Value && l.IsNan == IsNan
      ensures IsStorable(this) ==> Sanitized(l.Value, l.IsNan)
    {
      LatestMetric(
        RunID := RunID,
        Key := Key,
        Value := Value,
        Timestamp := Timestamp,
        Step := Step,
        IsNan := IsNan)
    }
  }

  /** A row of the `latest_metrics` table: the same six fields as `Metric`. */
  datatype LatestMetric = LatestMetric(
    Key: string,
    Value: Float64,
    Timestamp: int64,
    RunID: string,
    Step: int64,
    IsNan: bool)

  /** The domain metric (`entities.Metric`): every field present. */
  datatype EntityMetric = EntityMetric(
    Key: string,
    Value: Float64,
    Timestamp: int64,
    Step: int64)

  /** The wire message (`protos.Metric`): pointer fields become options. The
      value is read through its getter and is modelled as always present. */
  datatype ProtoMetric = ProtoMetric(
    Key: Option<string>,
    Value: Float64,
    Timestamp: Option<int64>,
    Step: Option<int64>)

  /** A value/flag pair the SQL column can hold: a finite float64, and 0
      whenever the flag records that the observation was NaN. */
  predicate Sanitized(value: Float64, isNan: bool) {
    value.Finite? && IsFloat64(value) && (isNan ==> value == Finite(0.0))
  }

  predicate IsStorable(m: Metric) {
    Sanitized(m.Value, m.IsNan)
  }

  /** The switch both constructors run on the observed value: SQL cannot
      represent NaN or the infinities, so NaN is stored as 0 and +Inf/-Inf
      as +/-`math.MaxFloat64`. */
  function SanitizeValue(v: Float64): (value: Float64)
    ensures value.Finite?
    ensures IsNaN(v) ==> value == Finite(0.0)
    ensures v.PosInf? ==> value == Finite(MaxFloat64)
    ensures v.NegInf? ==> value == Finite(-MaxFloat64)
    ensures v.Finite? ==> value == v
    ensures IsFloat64(v) ==> Sanitized(value, IsNaN(v))
  {
    MaxFloat64AtLeastOne();
    if IsNaN(v) then
      Finite(0.0)
    else if IsInf(v, 0) then
      if Gt(v, Finite(0.0)) then Finite(MaxFloat64) else Finite(-MaxFloat64)
    else
      v
  }

  /** `NewMetricFromEntity`: the row for a domain metric logged against `runID`. */
  function NewMetricFromEntity(runID: string, metric: EntityMetric): (m: Metric)
    ensures m.RunID == runID && m.Key == metric.Key && m.Timestamp == metric.Timestamp
    ensures m.Step == metric.Step
    ensures m.IsNan <==> IsNaN(metric.Value)
    ensures m.Value == SanitizeValue(metric.Value)
    ensures IsFloat64(metric.Value) ==> IsStorable(m)
  {
    var value := SanitizeValue(metric.Value);
    var step: int64 := if metric.Step != 0 then metric.Step else 0;
    Metric(
      RunID := runID,
      Key := metric.Key,
      Value := value,
      Timestamp := metric.Timestamp,
      Step := step,
      IsNan := IsNaN(metric.Value))
  }

  /** `NewMetricFromProto`: the row for a wire message logged against `runID`.
      The key and the timestamp are dereferenced, so they must be present. */
  function NewMetricFromProto(runID: string, metric: ProtoMetric): (m: Metric)
    requires metric.Key.Some? && metric.Timestamp.Some?
    ensures m.RunID == runID && m.Key == metric.Key.value && m.Timestamp == metric.Timestamp.value
    ensures metric.Step.Some? ==> m.Step == metric.Step.value
    ensures metric.Step.None? ==> m.Step == 0
    ensures m.IsNan <==> IsNaN(metric.Value)
    ensures m.Value == SanitizeValue(metric.Value)
    ensures IsFloat64(metric.Value) ==> IsStorable(m)
  {
    var value := SanitizeValue(metric.Value);
    var step: int64 := if metric.Step.Some? then metric.Step.value else 0;
    Metric(
      RunID := runID,
      Key := metric.Key.value,
      Value := value,
      Timestamp := metric.Timestamp.value,
      Step := step,
      IsNan := IsNaN(metric.Value))
  }

  /** Sanitising a stored value again changes nothing: the stored value is
      finite, so neither the NaN nor the infinity branch applies. */
  lemma SanitizeIdempotent(v: Float64)
    ensures !IsNaN(SanitizeValue(v)) && !IsInf(SanitizeValue(v), 0)
    ensures SanitizeValue(SanitizeValue(v)) == SanitizeValue(v)
  {
  }

  /** The value a reader recovers from a stored value and its NaN flag. */
  ghost function Recovered(value: Float64, isNan: bool): Float64 {
    if isNan then NaN else value
  }

  /** What sanitisation loses: NaN and every finite value survive a read-back
      through the flag; an infinity keeps its sign and loses its magnitude,
      storing the same value as a logged +/-`math.MaxFloat64`. */
  lemma SanitizeLosesOnlyInfinities(v: Float64)
    ensures !IsInf(v, 0) ==> Recovered(SanitizeValue(v), IsNaN(v)) == v
    ensures IsInf(v, 1) ==> Recovered(SanitizeValue(v), IsNaN(v)) == Finite(MaxFloat64)
    ensures IsInf(v, -1) ==> Recovered(SanitizeValue(v), IsNaN(v)) == Finite(-MaxFloat64)
    ensures IsInf(v, 0) ==>
      SanitizeValue(v) == SanitizeValue(Finite(if v.PosInf? then MaxFloat64 else -MaxFloat64))
  {
  }

  /** A domain metric and a wire message carrying the same key, value,
      timestamp and (present) step produce the same row. */
  lemma AdaptersAgree(runID: string, metric: EntityMetric)
    ensures NewMetricFromEntity(runID, metric)
         == NewMetricFromProto(runID, ProtoMetric(Some(metric.Key), metric.Value, Some(metric.Timestamp), Some(metric.Step)))
  {
  }

  /** A domain step of 0 and an absent wire step both store step 0. */
  lemma AdaptersAgreeOnDefaultStep(runID: string, key: string, value: Float64, timestamp: int64)
    ensures NewMetricFromEntity(runID, EntityMetric(key, value, timestamp, 0))
         == NewMetricFromProto(runID, ProtoMetric(Some(key), value, Some(timestamp), None))
  {
  }

  /** The latest row projected from the row of a domain metric holds
      exactly the fields the domain adapter stored. */
  lemma LatestMetricOfEntity(runID: string, metric: EntityMetric)
    ensures var l := NewMetricFromEntity(runID, metric).NewLatestMetricFromProto();
      l == LatestMetric(metric.Key, SanitizeValue(metric.Value), metric.Timestamp, runID,
                        metric.Step, IsNaN(metric.Value))
  {
  }
}

# Metric storage model of the tracking store

This project models how the SQL tracking store of an MLflow-compatible Go
server turns one metric observation into a row of the `metrics` table. An
observation has a run, a key, a float64 value, a timestamp and a step. The
project also models how that row is copied into a `latest_metrics` row.

Modules:

- `Float64` (`float64.dfy`): a float64 is a finite real, NaN, +Inf or -Inf.
  These are the kinds of floating-point datum in section 3 of IEEE 754-2008.
  The module defines Go's `math.IsNaN`, `math.IsInf` and float `==` and `>`. It defines
  `math.MaxFloat64` as (2^53 - 1) * 2^971. This is the exact value of Go's
  constant expression `0x1p1023 * (1 + (1 - 0x1p-52))`, because Go
  evaluates constant expressions exactly.
- `Wrappers` (`wrappers.dfy`): `Option`. It stands for the wire message's
  nil-able pointer fields.
- `Models` (`metrics.dfy`): the `Metric` and `LatestMetric` rows, the domain
  metric and the wire message, the value sanitisation, the two constructors
  and the latest-row projection.

Sanitisation is written once, as `SanitizeValue`. The two Go constructors
each carry their own copy of the same switch.

## Model

| member | source | states |
|---|---|---|
| `Models.SanitizeValue` | pkg/tracking/store/sql/models/metrics.go:23-37 | NaN is stored as 0, +Inf as `MaxFloat64`, -Inf as `-MaxFloat64`, and a finite value unchanged. The stored value is always finite. For any real float64 input, the value and its NaN flag form a storable pair: in range, and 0 when flagged NaN. |
| `Models.SanitizeIdempotent` | pkg/tracking/store/sql/models/metrics.go:25-37 | A stored value is neither NaN nor infinite, so sanitising it again leaves it unchanged. |
| `Models.SanitizeLosesOnlyInfinities` | pkg/tracking/store/sql/models/metrics.go:23-37 | With the NaN flag, NaN and every finite input are recovered exactly. +Inf and -Inf come back as `MaxFloat64` and `-MaxFloat64` with their sign kept. Their stored values are the same as those of a logged `MaxFloat64` or `-MaxFloat64`. |
| `Models.NewMetricFromEntity` | pkg/tracking/store/sql/models/metrics.go:20-52 | Run ID, key and timestamp are copied. The step is copied unchanged: the `!= 0` guard only maps 0 onto the default 0. `IsNan` is true exactly when the value is NaN. The value is sanitised, and the row is storable. |
| `Models.NewMetricFromProto` | pkg/tracking/store/sql/models/metrics.go:54-86 | Requires a present key and timestamp, because both are dereferenced. Run ID, key and timestamp are copied. The step is the given step when present and 0 when absent. `IsNan` is true exactly when the value is NaN. The value is sanitised, and the row is storable. |
| `Models.Metric.NewLatestMetricFromProto` | pkg/tracking/store/sql/models/metrics.go:88-97 | All six fields of the row are copied unchanged into the `LatestMetric`, so a storable row gives a storable latest row. |
| `Models.AdaptersAgree` | pkg/tracking/store/sql/models/metrics.go:20-86 | A domain metric and a wire message with equal key, value, timestamp and a present step produce the same row. |
| `Models.AdaptersAgreeOnDefaultStep` | pkg/tracking/store/sql/models/metrics.go:39-42 | A domain step of 0 and an absent wire step give the same row. |
| `Models.LatestMetricOfEntity` | pkg/tracking/store/sql/models/metrics.go:44-51 | The latest row built from a domain metric holds the adapter's run, key, timestamp and step, the sanitised value and the NaN flag. |
| `Float64.MaxFloat64Value` | pkg/tracking/store/sql/models/metrics.go:31-33 | `math.MaxFloat64`, defined as (2^53 - 1) * 2^971, equals 2^1024 - 2^971. That is the value of Go's constant expression `0x1p1023 * (1 + (1 - 0x1p-52))`. |
| `Float64.MaxFloat64IsLargestFinite` | pkg/tracking/store/sql/models/metrics.go:29-34 | `math.MaxFloat64` is the largest finite binary64 number. No m * 2^e with an integral significand m < 2^53 and any exponent e <= 971, negative exponents included, exceeds it. It is at least 1. |
| `Float64.IsNaN` | pkg/tracking/store/sql/models/metrics.go:23 | `math.IsNaN(f)` holds exactly when `f != f` under IEEE equality, which is true of NaN alone. |
| `Float64.IsInf` | pkg/tracking/store/sql/models/metrics.go:28 | `math.IsInf(f, sign)` tests for +Inf when sign >= 0 and for -Inf when sign <= 0, so `sign == 0` tests for either. On every value within float64's range, it agrees with Go's `sign >= 0 && f > MaxFloat64 || sign <= 0 && f < -MaxFloat64`. It never holds of NaN or of a finite value. |
| `Float64.Eq` | pkg/tracking/store/sql/models/metrics.go:23 | Go's float `==` is false when either side is NaN, and otherwise holds exactly when the values are equal. |
| `Float64.MaxFloat64AtLeastOne` | pkg/tracking/store/sql/models/metrics.go:29-34 | `math.MaxFloat64` is positive (at least 1), so `-MaxFloat64 <= 0 <= MaxFloat64`. |
| `Float64.Pow2` | pkg/tracking/store/sql/models/metrics.go:31 | The power of two used to build `math.MaxFloat64` is at least 1. |
| `Float64.Gt` | pkg/tracking/store/sql/models/metrics.go:30 | Go's float `>` is false when either side is NaN. On finite values it agrees with the order on reals. +Inf is greater than every non-NaN value except itself, and -Inf is greater than nothing. |
| `Float64.GtStrictOrder` | pkg/tracking/store/sql/models/metrics.go:30 | Float `>` is irreflexive, asymmetric and transitive, and it is total on non-NaN values. |

## Left out

- `Models.NewMetricFromProto`: the value is read through the generated getter `GetValue()` of a package that is not part of this model. It is modelled as always present, and no default for an absent value is assumed.
- `Models.NewMetricFromProto`: an absent key or timestamp would crash on a nil dereference. This is a precondition, not a modelled error.
- Floats: there is a single NaN and no negative zero. No rounding or bit-level encoding is modelled, because the code only classifies, compares and replaces values.
- The `entities` and `protos` packages are not part of this model. The domain metric is a plain record, and the wire message is a record of options.
- `LatestMetric` is declared in a file that is not part of this model. It is modelled as a record with the same six fields.
- The gorm/db struct tags and the composite primary key carry no behaviour and are not modelled.
- The SQL upsert that decides when a latest row replaces an existing one is not in this file. The "(step, timestamp, value)" ordering rule is not modelled.

/** Protocol revisions. A server version is identified by its rank in
    release order; all layout decisions compare ranks. */
module Versions {

  /** Number of server versions known to the model (1.7.10 up to 1.21). */
  const VERSION_COUNT: nat := 48

  type ServerVersion = r: nat | r < VERSION_COUNT

  const V_1_7_10: ServerVersion := 0
  const V_1_16: ServerVersion := 24
  const V_1_17: ServerVersion := 30
  const V_1_20_5: ServerVersion := 45

  predicate IsNewerThanOrEquals(v: ServerVersion, target: ServerVersion) {
    v >= target
  }

  predicate IsOlderThan(v: ServerVersion, target: ServerVersion) {
    v < target
  }

  /** The two comparisons are complements of each other, so a pair of
      fields gated by `IsOlderThan(t)` and `IsNewerThanOrEquals(t)` is
      always exactly one field. */
  lemma OlderIsNotNewerOrEqual(v: ServerVersion, target: ServerVersion)
    ensures IsOlderThan(v, target) == !IsNewerThanOrEquals(v, target)
  {
  }

  /** A client version: a release, or UNKNOWN before it is determined. */
  datatype ClientVersion = UNKNOWN | Release(server: ServerVersion)

  function ToClientVersion(v: ServerVersion): ClientVersion {
    Release(v)
  }
}

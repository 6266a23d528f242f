/** Wall-clock time as the handlers see it. */
module Time {
  /** Whole seconds since the Unix epoch (the `iat`/`exp` unit of a JSON Web Token). */
  type Instant = nat

  /** The length of the `"1d"` token lifetime, in seconds. */
  const SecondsPerDay: nat := 86400
}

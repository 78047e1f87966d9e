/** The User record of core/user/user.go and the opaque value types its fields use. */
module UserRecord {
  import opened Wrappers

  /** An instant, kept opaque. `ZeroTime` stands for Go's zero `time.Time`. */
  datatype Time = Time(ticks: int)

  const ZeroTime: Time := Time(0)

  /** A display-colour hue, kept as the raw bits of a float64; the model does no arithmetic on it. */
  datatype Hue = Hue(bits: bv64)

  /** The bits of the float64 value 0.0, Go's zero value for the field. */
  const ZeroHue: Hue := Hue(0)

  /** One user. `disabledAt` is None while the user is active (Go's nil `*time.Time`). */
  datatype User = User(
    id: string,
    accessToken: string,
    displayName: string,
    displayColor: Hue,
    createdAt: Time,
    disabledAt: Option<Time>)

  /** Every field except `id` holds Go's zero value. */
  predicate OnlyIdSet(u: User) {
    u.accessToken == "" && u.displayName == "" && u.displayColor == ZeroHue
    && u.createdAt == ZeroTime && u.disabledAt == None
  }
}

/** Names shared by several components. */
module Common {
  datatype Option<+T> = None | Some(value: T)

  /** The status of an effect row. */
  datatype EffectStatus = Pending | Confirmed | Failed | Unknown
}

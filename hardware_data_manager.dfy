/**
 * The record that flows from the sensor buffer to the accumulator: one
 * directional angular reading from an anchor (`src`) to a tag (`dst`).
 */
module HardwareDataManager {

  /** Anchor and tag identifiers (`usize` in the source). */
  type Id = nat

  /** Angles are modelled as exact reals; IEEE-754 rounding is not modelled. */
  type Radian = real

  datatype Update = Update(src: Id, dst: Id, elv: Radian, azm: Radian)

  /** The accumulator's window key of an update. */
  function KeyOf(u: Update): (Id, Id) {
    (u.src, u.dst)
  }
}

/** Types that several modules share. */
module Basics {

  datatype Option<+T> = None | Some(value: T)

  /** An IP address; the default one has no family. */
  datatype Address = Unset | V4(bits: nat) | V6(bits: nat)
}

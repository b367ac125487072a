/** Go's byte. */
module Octets {
  newtype byte = x: int | 0 <= x < 256
}

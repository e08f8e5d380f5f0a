/** Octets, shared by the models that look inside byte strings. */
module Bytes {
  newtype byte = x: int | 0 <= x < 256
}

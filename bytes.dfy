/** The unsigned 8-bit values that image buffers and files are made of. */
module Bytes {

  newtype byte = b: int | 0 <= b < 256
}

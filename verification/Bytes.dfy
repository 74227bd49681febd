/** The octets that the rewriters and tables work on. */
module Bytes {

  type Byte = b: int | 0 <= b < 256
}

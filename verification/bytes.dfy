/** Octets, as the UTF-8 encoder produces them and the base64 encoder consumes them. */
module Bytes {

  type byte = x: int | 0 <= x < 256

}

/** Bytes as the C++ code sees them in a `std::string` or a `char*` buffer. */
module Octets {
  type octet = c: char | c as int < 256

  type octets = seq<octet>

  // The letters and digits, in order.
  const UPPER: octets := "ABCDEFGHIJKLMNOPQRSTUVWXYZ"
  const LOWER: octets := "abcdefghijklmnopqrstuvwxyz"
  const HEX: octets := "0123456789abcdef"
  const UPPER_HEX: octets := "0123456789ABCDEF"
}

/** Optional values, octets, and constant sequences. */
module Basics {
  datatype Option<+T> = None | Some(value: T)

  type Octet = b: int | 0 <= b < 256

  function Repeat<T>(x: T, n: nat): seq<T> { seq(n, _ => x) }
}

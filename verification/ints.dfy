/** Fixed-width integers of the Rust code and the `as` casts between them.
    Rust `as` between integers of the same width reinterprets the two's
    complement bit pattern; the functions here write that out on `int`. */
module Ints {

  const TWO_63: int := 0x8000_0000_0000_0000
  const TWO_64: int := 0x1_0000_0000_0000_0000

  /** `i64` */
  type I64 = x: int | -TWO_63 <= x < TWO_63

  /** `u64`, the width of player ids (`Uid`) and match counts (`MatchCount`). */
  type U64 = x: int | 0 <= x < TWO_64

  /** Two's complement wrap-around of an unbounded integer into `i64`, as a
      release build's `+` on `i64` does. */
  function WrapI64(x: int): (r: I64)
    ensures (r - x) % TWO_64 == 0
    ensures -TWO_63 <= x < TWO_63 ==> r == x
  {
    var m := x % TWO_64;
    if m < TWO_63 then m else m - TWO_64
  }

  /** `x as u64` for an `i64` x. */
  function AsU64(x: I64): (r: U64)
    ensures r == x % TWO_64
  {
    if x < 0 then x + TWO_64 else x
  }

  /** `x as i64` for a `u64` x. */
  function AsI64(x: U64): (r: I64)
    ensures r % TWO_64 == x
    ensures x < TWO_63 ==> r == x
  {
    if x < TWO_63 then x else x - TWO_64
  }

  /** Casting a `u64` to `i64` and back restores it, so `as i64` loses no
      player id. */
  lemma U64RoundTrip(u: U64)
    ensures AsU64(AsI64(u)) == u
  {
  }

  /** Casting an `i64` to `u64` and back restores it. */
  lemma I64RoundTrip(i: I64)
    ensures AsI64(AsU64(i)) == i
  {
  }

  /** Distinct `u64` ids are sent as distinct `i64` request ids. */
  lemma AsI64Injective(a: U64, b: U64)
    ensures AsI64(a) == AsI64(b) <==> a == b
  {
    U64RoundTrip(a);
    U64RoundTrip(b);
  }
}

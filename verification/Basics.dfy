/** Shared vocabulary: options, the machine integers of the original program, bytes, the fate of a
    request, and flattening. */
module Basics {
  datatype Option<+T> = None | Some(value: T)

  const TWO_48 := 0x1_0000_0000_0000
  const TWO_63 := 0x8000_0000_0000_0000
  const TWO_64 := 0x1_0000_0000_0000_0000

  type u16 = x: int | 0 <= x < 0x1_0000
  type u32 = x: int | 0 <= x < 0x1_0000_0000
  type u64 = x: int | 0 <= x < TWO_64
  type i64 = x: int | -TWO_63 <= x < TWO_63

  /** The cast `x as i64`: the same 64 bits read as a signed number. */
  function AsI64(x: u64): i64 {
    if x < TWO_63 then x else x - TWO_64
  }

  /** The cast `x as u64`: the same 64 bits read as an unsigned number. */
  function AsU64(x: i64): u64 {
    if 0 <= x then x else x + TWO_64
  }

  function Max(a: int, b: int): int {
    if a >= b then a else b
  }

  function Min(a: int, b: int): int {
    if a <= b then a else b
  }

  type byte = x: int | 0 <= x < 256

  /** What becomes of one request to the server. */
  datatype Fate = Delivered | RequestLost | ReplyLost

  function Flatten<T>(ss: seq<seq<T>>): seq<T> {
    if ss == [] then [] else ss[0] + Flatten(ss[1..])
  }

  lemma {:induction false} FlattenConcat<T>(a: seq<seq<T>>, b: seq<seq<T>>)
    ensures Flatten(a + b) == Flatten(a) + Flatten(b)
    decreases |a|
  {
    if a == [] {
      assert a + b == b;
    } else {
      assert (a + b)[1..] == a[1..] + b;
      FlattenConcat(a[1..], b);
    }
  }
}

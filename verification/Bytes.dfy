/** Bytes, byte strings and the two small result shapes shared by every module. */
module Bytes {

  datatype Option<+T> = None | Some(value: T)

  /** An 8-bit code unit.  C++ `char` is compared here as its unsigned value; every
      comparison in the parser is against an ASCII constant, where the two agree. */
  type byte = b: int | 0 <= b < 256

  type Bytes = seq<byte>

  /** The bytes (and, equally, the code points) of an ASCII literal. */
  function L(s: string): Bytes
    requires forall i | 0 <= i < |s| :: s[i] as int < 128
  {
    seq(|s|, i requires 0 <= i < |s| => s[i] as int)
  }

  function Min(a: int, b: int): int { if a <= b then a else b }

  function Max(a: int, b: int): int { if a <= b then b else a }

  lemma HeadTail<T>(s: seq<T>)
    requires s != []
    ensures s == [s[0]] + s[1..]
    ensures |s| == 1 ==> s == [s[0]]
  {
  }

  lemma TailOfCons<T>(x: T, s: seq<T>)
    ensures ([x] + s)[1..] == s
  {
  }

  lemma Assoc<T>(a: seq<T>, b: seq<T>, c: seq<T>)
    ensures (a + b) + c == a + (b + c)
  {
  }

  lemma ConsConcat<T>(a: seq<T>, b: seq<T>)
    ensures if a == [] then a + b == b else a + b != [] && (a + b)[0] == a[0] && (a + b)[1..] == a[1..] + b
  {
  }
}

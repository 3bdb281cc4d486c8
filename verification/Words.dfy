/** Machine words, byte order and the small wrappers every other module uses. */
module Words {
  type u8 = x: int | 0 <= x < 0x100
  type u16 = x: int | 0 <= x < 0x1_0000
  type u32 = x: int | 0 <= x < 0x1_0000_0000
  type u64 = x: int | 0 <= x < 0x1_0000_0000_0000_0000

  const U32_MAX: u32 := 0xffff_ffff

  datatype Option<+T> = None | Some(value: T)
  datatype Result<+T, +E> = Ok(value: T) | Err(error: E)

  function Max(a: int, b: int): int { if a >= b then a else b }
  function Min(a: int, b: int): int { if a <= b then a else b }

  /** Rust's `u32::saturating_add` and `u32::wrapping_add`. */
  function SaturatingAdd(a: u32, b: nat): u32 { Min(a + b, U32_MAX) }
  function WrappingAdd(a: u32, b: u32): u32 { (a + b) % 0x1_0000_0000 }
  function WrappingSub(a: u32, b: u32): u32 { (a - b) % 0x1_0000_0000 }

  /** Big-endian encodings, `to_be_bytes` and `from_be_bytes`. */
  function Be16(x: u16): (b: seq<u8>)
    ensures |b| == 2
  {
    [x / 0x100, x % 0x100]
  }

  function Be32(x: u32): (b: seq<u8>)
    ensures |b| == 4
  {
    [x / 0x100_0000, x / 0x1_0000 % 0x100, x / 0x100 % 0x100, x % 0x100]
  }

  function FromBe16(b: seq<u8>): u16
    requires |b| == 2
  {
    b[0] as int * 0x100 + b[1]
  }

  function FromBe32(b: seq<u8>): u32
    requires |b| == 4
  {
    b[0] as int * 0x100_0000 + b[1] as int * 0x1_0000 + b[2] as int * 0x100 + b[3]
  }

  lemma Be16RoundTrip(x: u16)
    ensures FromBe16(Be16(x)) == x
  {
  }

  lemma Be32RoundTrip(x: u32)
    ensures FromBe32(Be32(x)) == x
  {
    assert x / 0x1_0000 == x / 0x100_0000 * 0x100 + x / 0x1_0000 % 0x100;
    assert x / 0x100 == x / 0x1_0000 * 0x100 + x / 0x100 % 0x100;
  }

  /** Little-endian decodings, `from_le_bytes`, and the encodings they undo. */
  function Le16(x: u16): (b: seq<u8>)
    ensures |b| == 2
  {
    [x % 0x100, x / 0x100]
  }

  function Le32(x: u32): (b: seq<u8>)
    ensures |b| == 4
  {
    [x % 0x100, x / 0x100 % 0x100, x / 0x1_0000 % 0x100, x / 0x100_0000]
  }

  function FromLe16(b: seq<u8>): u16
    requires |b| == 2
  {
    b[0] as int + b[1] as int * 0x100
  }

  function FromLe32(b: seq<u8>): u32
    requires |b| == 4
  {
    b[0] as int + b[1] as int * 0x100 + b[2] as int * 0x1_0000 + b[3] as int * 0x100_0000
  }

  lemma Le16RoundTrip(x: u16)
    ensures FromLe16(Le16(x)) == x
  {
  }

  lemma Le32RoundTrip(x: u32)
    ensures FromLe32(Le32(x)) == x
  {
    Be32RoundTrip(x);
  }

  /** `split(separator)`: never empty, and no piece contains the separator. */
  function Split(text: seq<u8>, separator: u8): (pieces: seq<seq<u8>>)
    ensures pieces != []
    ensures forall p | p in pieces :: separator !in p
  {
    if text == [] then [[]]
    else
      var rest := Split(text[1..], separator);
      if text[0] == separator then [[]] + rest else [[text[0]] + rest[0]] + rest[1..]
  }

  lemma {:induction false} SplitPrefix(piece: seq<u8>, separator: u8, rest: seq<u8>)
    requires separator !in piece
    ensures Split(piece + [separator] + rest, separator) == [piece] + Split(rest, separator)
    ensures Split(piece, separator) == [piece]
  {
    if piece == [] {
      assert piece + [separator] + rest == [separator] + rest;
    } else {
      SplitPrefix(piece[1..], separator, rest);
      assert (piece + [separator] + rest)[1..] == piece[1..] + [separator] + rest;
      assert [piece[0]] + piece[1..] == piece;
    }
  }

  /** Distinct integers in `[lo, hi)` number at most `hi - lo`. */
  predicate Distinct<T(==)>(s: seq<T>) {
    forall i, j | 0 <= i < j < |s| :: s[i] != s[j]
  }

  function Interval(lo: int, hi: int): (s: set<int>)
    requires lo <= hi
    ensures |s| == hi - lo
    ensures forall v :: v in s <==> lo <= v < hi
    decreases hi - lo
  {
    if lo == hi then {} else Interval(lo, hi - 1) + {hi - 1}
  }

  function Elements<T(!new)>(s: seq<T>): (e: set<T>)
    ensures forall v :: v in e <==> v in s
  {
    set v | v in s
  }

  lemma DistinctCount<T(!new)>(s: seq<T>)
    requires Distinct(s)
    ensures |Elements(s)| == |s|
  {
    if s != [] {
      var front, last := s[..|s| - 1], s[|s| - 1];
      DistinctCount(front);
      assert s == front + [last];
      assert Elements(s) == Elements(front) + {last};
    }
  }

  lemma SubsetCount<T>(a: set<T>, b: set<T>)
    requires a <= b
    ensures |a| <= |b|
    ensures |a| == |b| ==> a == b
  {
    assert b == a + (b - a);
    assert |b| == |a| + |b - a|;
  }

  /** Pigeonhole: distinct values of an interval cannot outnumber it, and if they fill it they are all of it. */
  lemma Pigeonhole(s: seq<int>, lo: int, hi: int)
    requires Distinct(s) && lo <= hi
    requires forall i | 0 <= i < |s| :: lo <= s[i] < hi
    ensures |s| <= hi - lo
    ensures |s| == hi - lo ==> forall v | lo <= v < hi :: v in s
  {
    DistinctCount(s);
    SubsetCount(Elements(s), Interval(lo, hi));
  }
}

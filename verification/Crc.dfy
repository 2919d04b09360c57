// CRC-32 computed a bit at a time (crates/gascan-oci-fixture/src/lib.rs), against the table form of section 8 of
// RFC 1952.
module Crc {
  import opened Bytes

  // --------------------------------------------------------------------------- words

  /** A 32-bit word as its bits, least significant first. */
  type Word = w: seq<bool> | |w| == 32 witness seq(32, _ => false)

  /** The low `width` bits of a number. */
  function Bits(n: nat, width: nat): (b: seq<bool>)
    ensures |b| == width
  {
    if width == 0 then [] else [n % 2 == 1] + Bits(n / 2, width - 1)
  }

  function Value(bits: seq<bool>): nat {
    if bits == [] then 0 else One(bits[0]) + 2 * Value(bits[1..])
  }

  function Pow2(n: nat): (p: nat)
    ensures p >= 1
  {
    if n == 0 then 1 else 2 * Pow2(n - 1)
  }

  lemma {:induction false} BitsReadBack(n: nat, width: nat)
    requires n < Pow2(width)
    ensures Value(Bits(n, width)) == n
  {
    if width > 0 { BitsReadBack(n / 2, width - 1); }
  }

  lemma {:induction false} ValueIsSmall(bits: seq<bool>)
    ensures Value(bits) < Pow2(|bits|)
  {
    if bits != [] { ValueIsSmall(bits[1..]); }
  }

  lemma Pow2Of8()
    ensures Pow2(8) == 256
  {
    assert Pow2(4) == 16;
  }

  const POLYNOMIAL_0: seq<bool> := [false, false, false, false, false, true, false, false]
  const POLYNOMIAL_1: seq<bool> := [true, true, false, false, false, false, false, true]
  const POLYNOMIAL_2: seq<bool> := [false, false, false, true, true, true, false, true]
  const POLYNOMIAL_3: seq<bool> := [true, false, true, true, false, true, true, true]
  const POLYNOMIAL: Word := POLYNOMIAL_0 + POLYNOMIAL_1 + POLYNOMIAL_2 + POLYNOMIAL_3

  /** The constant is the reversed generator polynomial of RFC 1952. */
  lemma PolynomialValue()
    ensures Value(POLYNOMIAL) == 0xedb8_8320
  {
    ValueOfBytes(POLYNOMIAL_0, POLYNOMIAL_1, POLYNOMIAL_2, POLYNOMIAL_3);
    LowPolynomialBytes();
    HighPolynomialBytes();
  }

  lemma LowPolynomialBytes()
    ensures Value(POLYNOMIAL_0) == 0x20 && Value(POLYNOMIAL_1) == 0x83
  {
    ValueOfEight(POLYNOMIAL_0);
    ValueOfEight(POLYNOMIAL_1);
  }

  lemma HighPolynomialBytes()
    ensures Value(POLYNOMIAL_2) == 0xb8 && Value(POLYNOMIAL_3) == 0xed
  {
    ValueOfEight(POLYNOMIAL_2);
    ValueOfEight(POLYNOMIAL_3);
  }

  lemma ValueOfBytes(a: seq<bool>, b: seq<bool>, c: seq<bool>, d: seq<bool>)
    requires |a| == |b| == |c| == |d| == 8
    ensures Value(a + b + c + d) == Value(a) + 256 * Value(b) + 65536 * Value(c) + 16777216 * Value(d)
  {
    ByteThenRest(a, b + (c + d));
    ByteThenRest(b, c + d);
    ByteThenRest(c, d);
    assert a + b + c + d == a + (b + (c + d));
  }

  lemma ByteThenRest(a: seq<bool>, rest: seq<bool>)
    requires |a| == 8
    ensures Value(a + rest) == Value(a) + 256 * Value(rest)
  {
    Pow2Of8();
    ValueOfConcat(a, rest);
  }

  lemma ValueOfConcat(a: seq<bool>, b: seq<bool>)
    ensures Value(a + b) == Value(a) + Pow2(|a|) * Value(b)
  {
    ValueSplits(a + b, |a|);
    assert (a + b)[..|a|] == a && (a + b)[|a|..] == b;
  }

  lemma {:induction false} ValueSplits(bits: seq<bool>, n: nat)
    requires n <= |bits|
    ensures Value(bits) == Value(bits[..n]) + Pow2(n) * Value(bits[n..])
  {
    if n == 0 {
      assert bits[0..] == bits;
    } else {
      ValueSplits(bits[1..], n - 1);
      assert bits[..n][1..] == bits[1..][..n - 1] && bits[1..][n - 1..] == bits[n..];
      DoubleProduct(Pow2(n - 1), Value(bits[n..]));
    }
  }

  lemma DoubleProduct(p: nat, v: nat)
    ensures 2 * (p * v) == (2 * p) * v
  {
  }

  lemma ValueOfEight(b: seq<bool>)
    requires |b| == 8
    ensures Value(b) == One(b[0]) + 2 * One(b[1]) + 4 * One(b[2]) + 8 * One(b[3])
                        + 16 * One(b[4]) + 32 * One(b[5]) + 64 * One(b[6]) + 128 * One(b[7])
  {
    ValueOfFour(b[..4]);
    ValueOfFour(b[4..]);
    ValueSplits(b, 4);
    assert Pow2(4) == 16;
  }

  lemma ValueOfFour(b: seq<bool>)
    requires |b| == 4
    ensures Value(b) == One(b[0]) + 2 * One(b[1]) + 4 * One(b[2]) + 8 * One(b[3])
  {
    assert b[1..][1..] == b[2..] && b[2..][1..] == b[3..] && b[3..][1..] == [];
    assert Value(b[3..]) == One(b[3]);
    assert Value(b[2..]) == One(b[2]) + 2 * One(b[3]);
    assert Value(b[1..]) == One(b[1]) + 2 * Value(b[2..]);
  }

  function One(b: bool): nat { if b then 1 else 0 }

  function Xor(a: Word, b: Word): Word { seq(32, k requires 0 <= k < 32 => a[k] != b[k]) }

  function ShiftRight(a: Word, n: nat): Word { seq(32, k requires 0 <= k < 32 => k + n < 32 && a[k + n]) }

  function LowByte(a: Word): Word { seq(32, k requires 0 <= k < 32 => k < 8 && a[k]) }

  function HighBytes(a: Word): Word { seq(32, k requires 0 <= k < 32 => k >= 8 && a[k]) }

  function Not(a: Word): Word { seq(32, k requires 0 <= k < 32 => !a[k]) }

  const ALL_ONES: Word := seq(32, _ => true)

  /** A byte as the low bits of a word. */
  function Pattern(b: byte): Word { Bits(b, 8) + seq(24, _ => false) }

  lemma PatternIsFaithful(a: byte, b: byte)
    requires Pattern(a) == Pattern(b)
    ensures a == b
  {
    Pow2Of8();
    assert Pattern(a)[..8] == Bits(a, 8) && Pattern(b)[..8] == Bits(b, 8);
    BitsReadBack(a, 8);
    BitsReadBack(b, 8);
  }

  // --------------------------------------------------------------------- iteration laws

  function Iterate<T>(f: T -> T, x: T, n: nat): T { if n == 0 then x else f(Iterate(f, x, n - 1)) }

  function Fold<T>(f: (T, byte) -> T, start: T, data: seq<byte>): T {
    if data == [] then start else f(Fold(f, start, data[..|data| - 1]), data[|data| - 1])
  }

  lemma {:induction false} IterateIsAdditive<T(!new)>(f: T -> T, plus: (T, T) -> T, a: T, b: T, n: nat)
    requires forall x, y :: f(plus(x, y)) == plus(f(x), f(y))
    ensures Iterate(f, plus(a, b), n) == plus(Iterate(f, a, n), Iterate(f, b, n))
  {
    if n > 0 { IterateIsAdditive(f, plus, a, b, n - 1); }
  }

  lemma {:induction false} IterateIsInjective<T(!new)>(f: T -> T, a: T, b: T, n: nat)
    requires forall x, y :: f(x) == f(y) ==> x == y
    requires Iterate(f, a, n) == Iterate(f, b, n)
    ensures a == b
  {
    if n > 0 { IterateIsInjective(f, a, b, n - 1); }
  }

  lemma {:induction false} FoldsAgree<T(!new)>(f: (T, byte) -> T, g: (T, byte) -> T, start: T, data: seq<byte>)
    requires forall c, b :: f(c, b) == g(c, b)
    ensures Fold(f, start, data) == Fold(g, start, data)
  {
    if data != [] { FoldsAgree(f, g, start, data[..|data| - 1]); }
  }

  lemma {:induction false} FoldKeepsApart<T(!new)>(f: (T, byte) -> T, c: T, d: T, data: seq<byte>)
    requires forall x, y, b :: f(x, b) == f(y, b) ==> x == y
    requires c != d
    ensures Fold(f, c, data) != Fold(f, d, data)
  {
    if data != [] { FoldKeepsApart(f, c, d, data[..|data| - 1]); }
  }

  lemma {:induction false} FoldConcat<T>(f: (T, byte) -> T, start: T, a: seq<byte>, b: seq<byte>)
    ensures Fold(f, start, a + b) == Fold(f, Fold(f, start, a), b)
  {
    if b == [] {
      assert a + b == a;
    } else {
      FoldConcat(f, start, a, b[..|b| - 1]);
      assert (a + b)[..|a + b| - 1] == a + b[..|b| - 1];
    }
  }

  /** In any fold that loses nothing, one changed element changes the result. */
  lemma OneElementMatters<T(!new)>(f: (T, byte) -> T, start: T, data: seq<byte>, k: nat, b: byte)
    requires forall x, y, c :: f(x, c) == f(y, c) ==> x == y
    requires forall x, c, d :: f(x, c) == f(x, d) ==> c == d
    requires k < |data| && data[k] != b
    ensures Fold(f, start, data[k := b]) != Fold(f, start, data)
  {
    var front, back := data[..k], data[k + 1..];
    assert data == front + [data[k]] + back && data[k := b] == front + [b] + back;
    FoldConcat(f, start, front + [data[k]], back);
    FoldConcat(f, start, front + [b], back);
    assert (front + [data[k]])[..k] == front && (front + [b])[..k] == front;
    FoldKeepsApart(f, Fold(f, start, front + [b]), Fold(f, start, front + [data[k]]), back);
  }

  // ------------------------------------------------------------------- one bit, one byte

  const BYTE_BITS: nat := 8

  function Step(x: Word): Word { if x[0] then Xor(ShiftRight(x, 1), POLYNOMIAL) else ShiftRight(x, 1) }

  /** Eight steps, one per bit of a byte. */
  function Steps(x: Word): Word { Iterate(Step, x, BYTE_BITS) }

  function Feed(crc: Word, b: byte): Word { Steps(Xor(crc, Pattern(b))) }

  function Crc32Of(data: seq<byte>): Word { Not(Fold(Feed, ALL_ONES, data)) }

  method Crc32(data: seq<byte>) returns (result: Word)
    ensures result == Crc32Of(data)
  {
    var crc: Word := ALL_ONES;
    for n := 0 to |data|
      invariant crc == Fold(Feed, ALL_ONES, data[..n])
    {
      crc := FeedByte(crc, data[n]);
      assert data[..n + 1][..n] == data[..n];
    }
    assert data[..|data|] == data;
    return Not(crc);
  }

  /** The inner loop: the byte is mixed in, then shifted out bit by bit. */
  method FeedByte(before: Word, b: byte) returns (crc: Word)
    ensures crc == Feed(before, b)
  {
    crc := Xor(before, Pattern(b));
    ghost var start := crc;
    for k := 0 to BYTE_BITS
      invariant crc == Iterate(Step, start, k)
    {
      crc := Step(crc);
    }
  }

  // ------------------------------------------------------------------------- table form

  /** Entry `n` of the table of section 8 of RFC 1952. */
  function TableEntry(n: Word): Word { Iterate(Step, n, BYTE_BITS) }

  function TableFeed(crc: Word, b: byte): Word {
    Xor(TableEntry(LowByte(Xor(crc, Pattern(b)))), ShiftRight(crc, 8))
  }

  lemma StepIsAdditive(a: Word, b: Word)
    ensures Step(Xor(a, b)) == Xor(Step(a), Step(b))
  {
  }

  lemma StepsAreAdditive(a: Word, b: Word)
    ensures Steps(Xor(a, b)) == Xor(Steps(a), Steps(b))
  {
    forall x, y ensures Step(Xor(x, y)) == Xor(Step(x), Step(y)) { StepIsAdditive(x, y); }
    IterateIsAdditive(Step, Xor, a, b, BYTE_BITS);
  }

  /** A word with `n` clear low bits is only shifted by `n` steps. */
  lemma {:induction false} ClearBitsShift(y: Word, n: nat)
    requires n <= 32 && forall k | 0 <= k < n :: !y[k]
    ensures Iterate(Step, y, n) == ShiftRight(y, n)
  {
    if n == 0 {
      assert ShiftRight(y, 0) == y;
    } else {
      ClearBitsShift(y, n - 1);
      var before := ShiftRight(y, n - 1);
      assert !before[0];
      assert ShiftRight(before, 1) == ShiftRight(y, n);
    }
  }

  lemma FeedIsTableFeed(crc: Word, b: byte)
    ensures Feed(crc, b) == TableFeed(crc, b)
  {
    var x := Xor(crc, Pattern(b));
    assert x == Xor(LowByte(x), HighBytes(x));
    StepsAreAdditive(LowByte(x), HighBytes(x));
    ClearBitsShift(HighBytes(x), BYTE_BITS);
    assert ShiftRight(HighBytes(x), 8) == ShiftRight(crc, 8);
  }

  /** The bit-by-bit computation is the table computation of RFC 1952, for every message. */
  lemma BitwiseIsTableForm(data: seq<byte>)
    ensures Crc32Of(data) == Not(Fold(TableFeed, ALL_ONES, data))
  {
    forall c, b ensures Feed(c, b) == TableFeed(c, b) { FeedIsTableFeed(c, b); }
    FoldsAgree(Feed, TableFeed, ALL_ONES, data);
  }

  // ------------------------------------------------------------------------ sensitivity

  /** The top bit of a stepped word is the bit shifted out, so nothing is lost. */
  lemma StepIsInjective(a: Word, b: Word)
    requires Step(a) == Step(b)
    ensures a == b
  {
    assert Step(a)[31] == a[0] && Step(b)[31] == b[0];
    forall k | 0 < k < 32 ensures a[k] == b[k] {
      assert Step(a)[k - 1] == Step(b)[k - 1];
    }
  }

  lemma XorCancels(a: Word, b: Word, p: Word)
    ensures Xor(a, p) == Xor(b, p) ==> a == b
    ensures Xor(p, a) == Xor(p, b) ==> a == b
  {
    if Xor(a, p) == Xor(b, p) {
      forall k | 0 <= k < 32 ensures a[k] == b[k] { assert Xor(a, p)[k] == Xor(b, p)[k]; }
    }
    if Xor(p, a) == Xor(p, b) {
      forall k | 0 <= k < 32 ensures a[k] == b[k] { assert Xor(p, a)[k] == Xor(p, b)[k]; }
    }
  }

  lemma FeedIsInjective(c: Word, d: Word, a: byte, b: byte)
    requires Feed(c, a) == Feed(d, b)
    ensures a == b ==> c == d
    ensures c == d ==> a == b
  {
    forall x, y ensures Step(x) == Step(y) ==> x == y { if Step(x) == Step(y) { StepIsInjective(x, y); } }
    IterateIsInjective(Step, Xor(c, Pattern(a)), Xor(d, Pattern(b)), BYTE_BITS);
    XorCancels(c, d, Pattern(a));
    XorCancels(Pattern(a), Pattern(b), c);
    if Pattern(a) == Pattern(b) { PatternIsFaithful(a, b); }
  }

  /** Changing one byte, anywhere in any message, always changes the checksum. */
  lemma OneByteChangesCrc(data: seq<byte>, k: nat, b: byte)
    requires k < |data| && data[k] != b
    ensures Crc32Of(data[k := b]) != Crc32Of(data)
  {
    forall x, y, c ensures Feed(x, c) == Feed(y, c) ==> x == y {
      if Feed(x, c) == Feed(y, c) { FeedIsInjective(x, y, c, c); }
    }
    forall x, c, d ensures Feed(x, c) == Feed(x, d) ==> c == d {
      if Feed(x, c) == Feed(x, d) { FeedIsInjective(x, x, c, d); }
    }
    OneElementMatters(Feed, ALL_ONES, data, k, b);
    NotIsInjective(Fold(Feed, ALL_ONES, data), Fold(Feed, ALL_ONES, data[k := b]));
  }

  lemma NotIsInjective(a: Word, b: Word)
    ensures Not(a) == Not(b) ==> a == b
  {
    if Not(a) == Not(b) {
      forall k | 0 <= k < 32 ensures a[k] == b[k] { assert Not(a)[k] == Not(b)[k]; }
    }
  }
}

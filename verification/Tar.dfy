// The tar block walker (scripts/src/bundle.rs, `validate_tar_layout`).
module Tar {
  import opened Wrappers
  import opened Bytes

  /** File offsets are signed 64-bit, so this is the longest file there is. */
  const MAX_FILE: nat := 0x7FFF_FFFF_FFFF_FFFF

  /** Unsigned 64-bit operations. The preconditions are the proofs that the overflow branches are never taken. */
  function Add64(a: nat, b: nat): nat
    requires a + b <= U64_MAX
  {
    a + b
  }

  function Mul64(a: nat, b: nat): nat
    requires a * b <= U64_MAX
  {
    a * b
  }

  // -------------------------------------------------------------------- octal fields

  predicate IsPad(b: byte) { b == 0 || b == 32 }

  function SkipPad(field: seq<byte>): (r: seq<byte>)
    ensures |r| <= |field|
  {
    if field != [] && IsPad(field[0]) then SkipPad(field[1..]) else field
  }

  function TakeDigits(field: seq<byte>): (r: seq<byte>)
    ensures |r| <= |field|
  {
    if field == [] || IsPad(field[0]) then [] else [field[0]] + TakeDigits(field[1..])
  }

  predicate IsOctal(b: byte) { 48 <= b <= 55 }

  function Pow8(n: nat): (p: nat)
    ensures p >= 1
  {
    if n == 0 then 1 else 8 * Pow8(n - 1)
  }

  lemma Pow8Of12()
    ensures Pow8(11) == 0x2_0000_0000 && Pow8(12) == 0x10_0000_0000
  {
    assert Pow8(3) == 512;
    assert Pow8(6) == 0x4_0000;
    assert Pow8(9) == 0x800_0000;
  }

  lemma {:induction false} Pow8Grows(m: nat, n: nat)
    requires m <= n
    ensures Pow8(m) <= Pow8(n)
  {
    if m < n { Pow8Grows(m, n - 1); }
  }

  /** Twelve octal digits stay below 2^36, so neither the multiplication nor the addition can overflow. */
  function OctalValue(digits: seq<byte>): (v: Option<nat>)
    requires |digits| <= 12
    ensures v.Some? ==> v.value < Pow8(|digits|)
  {
    if digits == [] then Some(0) else
      var last := digits[|digits| - 1];
      var high := OctalValue(digits[..|digits| - 1]);
      if high.None? || !IsOctal(last) then None
      else
        Pow8Of12(); Pow8Grows(|digits| - 1, 12);
        Some(Add64(Mul64(high.value, 8), last - 48))
  }

  function ParseOctal(field: seq<byte>): (v: Option<nat>)
    requires |field| == 12
    ensures v.Some? ==> v.value < 0x10_0000_0000
  {
    var digits := TakeDigits(SkipPad(field));
    Pow8Of12(); Pow8Grows(|digits|, 12);
    OctalValue(digits)
  }

  // ------------------------------------------------------------------------- grammar

  /** A whole number of 512-byte blocks, counted rather than divided. */
  predicate IsWhole(n: nat) { n == 0 || (n >= 512 && IsWhole(n - 512)) }

  lemma {:induction false} WholeIsMultiple(n: nat)
    ensures IsWhole(n) <==> n % 512 == 0
  {
    if n >= 512 { WholeIsMultiple(n - 512); }
  }

  lemma {:induction false} WholeSum(a: nat, b: nat)
    requires IsWhole(a) && IsWhole(b)
    ensures IsWhole(a + b)
  {
    if a > 0 { WholeSum(a - 512, b); }
  }

  lemma {:induction false} WholeBelow(a: nat, b: nat)
    requires IsWhole(a) && IsWhole(b) && a < b
    ensures a + 512 <= b
  {
    if a > 0 { WholeBelow(a - 512, b - 512); }
  }

  function Padded(size: nat): (p: nat)
    ensures IsWhole(p) && size <= p < size + 512
  {
    var p := (size + 511) / 512 * 512;
    WholeIsMultiple(p);
    p
  }

  lemma WholeMember(offset: nat, size: nat)
    requires IsWhole(offset)
    ensures IsWhole(offset + 512 + Padded(size))
  {
    WholeSum(offset, 512);
    WholeSum(offset + 512, Padded(size));
  }

  function Padded64(size: nat): (p: nat)
    requires size + 511 <= U64_MAX
    ensures p == Padded(size)
  {
    Add64(size, 511) / 512 * 512
  }

  predicate AllZero(s: seq<byte>) { forall k | 0 <= k < |s| :: s[k] == 0 }

  datatype Member = Member(header: seq<byte>, payload: seq<byte>)

  function SizeField(header: seq<byte>): Option<nat>
    requires |header| == 512
  {
    ParseOctal(header[124..136])
  }

  /** A header block with a readable size, followed by that many bytes rounded up to whole blocks. */
  predicate IsMember(m: Member) {
    && |m.header| == 512 && !AllZero(m.header)
    && SizeField(m.header).Some? && |m.payload| == Padded(SizeField(m.header).value)
  }

  predicate AreMembers(ms: seq<Member>) { forall m | m in ms :: IsMember(m) }

  function Flatten(ms: seq<Member>): seq<byte> {
    if ms == [] then [] else ms[0].header + ms[0].payload + Flatten(ms[1..])
  }

  /** Members, then two zero blocks, then nothing. */
  predicate IsLayoutOf(data: seq<byte>, ms: seq<Member>) {
    AreMembers(ms) && data == Flatten(ms) + Zeros(1024)
  }

  // -------------------------------------------------------------------------- parser

  /** One step of the walk at the start of `s`: the member found there, if any. */
  function Next(s: seq<byte>): Option<Member> {
    if |s| < 512 || AllZero(s[..512]) then None
    else
      var size := SizeField(s[..512]);
      if size.None? || 512 + Padded(size.value) > |s| then None
      else Some(Member(s[..512], s[512..512 + Padded(size.value)]))
  }

  function Walk(s: seq<byte>): Option<seq<Member>>
    decreases |s|
  {
    if s == Zeros(1024) then Some([])
    else if Next(s).None? then None
    else
      var m := Next(s).value;
      var rest := Walk(s[512 + |m.payload|..]);
      if rest.None? then None else Some([m] + rest.value)
  }

  lemma SplitMember(s: seq<byte>, m: Member, tail: seq<byte>)
    requires Next(s) == Some(m) && tail == s[512 + |m.payload|..]
    ensures s == m.header + m.payload + tail && IsMember(m)
  {
  }

  lemma {:induction false} WalkIsSound(s: seq<byte>)
    ensures Walk(s).Some? ==> IsLayoutOf(s, Walk(s).value)
    decreases |s|
  {
    if Walk(s).Some? && s != Zeros(1024) {
      var m := Next(s).value;
      var tail := s[512 + |m.payload|..];
      WalkIsSound(tail);
      var rest := Walk(tail).value;
      SplitMember(s, m, tail);
      assert ([m] + rest)[1..] == rest;
      ConcatAssociates(m.header + m.payload, Flatten(rest), Zeros(1024));
    }
  }

  lemma NextIsDetermined(m: Member, tail: seq<byte>)
    requires IsMember(m)
    ensures Next(m.header + m.payload + tail) == Some(m)
    ensures m.header + m.payload + tail != Zeros(1024)
  {
    var s := m.header + m.payload + tail;
    assert s[..512] == m.header;
    assert s[512..512 + |m.payload|] == m.payload;
    var k :| 0 <= k < 512 && m.header[k] != 0;
    assert s[k] != Zeros(1024)[k];
  }

  /** Every layout is found, and it is the only reading of its bytes. */
  lemma {:induction false} WalkIsComplete(s: seq<byte>, ms: seq<Member>)
    requires IsLayoutOf(s, ms)
    ensures Walk(s) == Some(ms)
    decreases |ms|
  {
    if ms == [] {
      assert Flatten(ms) + Zeros(1024) == Zeros(1024);
    } else {
      var m, tail := ms[0], Flatten(ms[1..]) + Zeros(1024);
      assert m in ms;
      assert s == m.header + m.payload + tail;
      NextIsDetermined(m, tail);
      WalkIsComplete(tail, ms[1..]);
      assert s[512 + |m.payload|..] == tail;
      assert ms == [m] + ms[1..];
    }
  }

  lemma {:induction false} LayoutLength(ms: seq<Member>)
    requires AreMembers(ms)
    ensures IsWhole(|Flatten(ms)|)
  {
    if ms != [] {
      assert ms[0] in ms;
      LayoutLength(ms[1..]);
      WholeSum(512, |ms[0].payload|);
      WholeSum(512 + |ms[0].payload|, |Flatten(ms[1..])|);
    }
  }

  /** A layout is a whole number of blocks, at least two. */
  lemma WholeLayout(data: seq<byte>, ms: seq<Member>)
    requires IsLayoutOf(data, ms)
    ensures |data| >= 1024 && IsWhole(|data|)
  {
    LayoutLength(ms);
    WholeIsMultiple(1024);
    WholeSum(|Flatten(ms)|, 1024);
  }

  lemma WalkPast(data: seq<byte>, offset: nat)
    requires offset + 512 <= |data|
    requires var header := data[offset..offset + 512];
      && !AllZero(header) && SizeField(header).Some?
      && offset + 512 + Padded(SizeField(header).value) <= |data|
    ensures var next := offset + 512 + Padded(SizeField(data[offset..offset + 512]).value);
      Walk(data[offset..]).Some? <==> Walk(data[next..]).Some?
  {
    var rest, header := data[offset..], data[offset..offset + 512];
    var next := offset + 512 + Padded(SizeField(header).value);
    assert rest[..512] == header && rest[next - offset..] == data[next..];
    assert rest != Zeros(1024) by {
      var k :| 0 <= k < 512 && header[k] != 0;
      assert rest[k] != Zeros(1024)[k];
    }
  }

  /** The walk at an offset, block by block. */
  lemma WalkAt(data: seq<byte>, offset: nat)
    requires offset + 512 <= |data|
    ensures var header := data[offset..offset + 512];
      && (AllZero(header) ==>
            (Walk(data[offset..]).Some? <==> |data| == offset + 1024 && AllZero(data[offset + 512..offset + 1024])))
      && (!AllZero(header) && SizeField(header).None? ==> Walk(data[offset..]).None?)
      && (!AllZero(header) && SizeField(header).Some? ==>
            var next := offset + 512 + Padded(SizeField(header).value);
            if next > |data| then Walk(data[offset..]).None?
            else Walk(data[offset..]).Some? <==> Walk(data[next..]).Some?)
  {
    var rest, header := data[offset..], data[offset..offset + 512];
    assert rest[..512] == header;
    if AllZero(header) {
      if |data| == offset + 1024 {
        var second := data[offset + 512..offset + 1024];
        assert rest == header + second;
        if AllZero(second) {
          assert rest == Zeros(1024);
        } else {
          var k :| 0 <= k < 512 && second[k] != 0;
          assert rest[512 + k] != Zeros(1024)[512 + k];
        }
      }
    } else {
      assert rest != Zeros(1024) by {
        var k :| 0 <= k < 512 && header[k] != 0;
        assert rest[k] != Zeros(1024)[k];
      }
      if SizeField(header).Some? {
        var next := offset + 512 + Padded(SizeField(header).value);
        if next <= |data| { WalkPast(data, offset); }
      }
    }
  }

  lemma WalkNeedsWholeBlocks(data: seq<byte>)
    ensures Walk(data).Some? ==> |data| >= 1024 && IsWhole(|data|)
  {
    WalkIsSound(data);
    if Walk(data).Some? { WholeLayout(data, Walk(data).value); }
  }

  lemma VerdictOfWalk(data: seq<byte>)
    ensures Walk(data).Some? ==> IsLayoutOf(data, Walk(data).value)
    ensures Walk(data).None? ==> forall ms :: !IsLayoutOf(data, ms)
  {
    WalkIsSound(data);
    forall ms | IsLayoutOf(data, ms) ensures Walk(data) == Some(ms) { WalkIsComplete(data, ms); }
  }

  datatype LayoutError = Truncated | SingleTerminator | TrailingData | InvalidSize | MissingTerminator

  /**
   * The walker accepts exactly the well-formed layouts and nothing more. `members` is the one reading of an accepted
   * file. It terminates, and no 64-bit operation overflows.
   */
  method ValidateTarLayout(data: seq<byte>) returns (failure: Option<LayoutError>, ghost members: seq<Member>)
    requires |data| <= MAX_FILE
    ensures failure.None? ==> IsLayoutOf(data, members)
    ensures failure.Some? ==> forall ms :: !IsLayoutOf(data, ms)
  {
    VerdictOfWalk(data);
    failure := WalkBlocks(data);
    members := if failure.None? then Walk(data).value else [];
  }

  datatype Step = Stop(failure: Option<LayoutError>) | Advance(next: nat)

  /** One turn of the loop: the header at `offset` ends the walk or moves it past a member. */
  function ReadBlock(data: seq<byte>, offset: nat): Step
    requires offset + 512 <= |data| <= MAX_FILE
  {
    var header := data[offset..offset + 512];
    if AllZero(header) then
      Stop(if offset + 1024 > |data| then Some(Truncated)
           else if !AllZero(data[offset + 512..offset + 1024]) then Some(SingleTerminator)
           else if offset + 1024 != |data| then Some(TrailingData)
           else None)
    else
      var size := SizeField(header);
      if size.None? then Stop(Some(InvalidSize)) else
        var next := Add64(Add64(offset, 512), Padded64(size.value));
        if next > |data| then Stop(Some(Truncated)) else Advance(next)
  }

  lemma BlockStops(data: seq<byte>, offset: nat)
    requires offset + 512 <= |data| <= MAX_FILE && ReadBlock(data, offset).Stop?
    ensures ReadBlock(data, offset).failure.None? <==> Walk(data[offset..]).Some?
  {
    WalkAt(data, offset);
  }

  /** Where a block that is not a terminator leads. */
  lemma NextBlock(data: seq<byte>, offset: nat)
    requires offset + 512 <= |data| <= MAX_FILE && IsWhole(offset) && ReadBlock(data, offset).Advance?
    ensures var header, next := data[offset..offset + 512], ReadBlock(data, offset).next;
      && !AllZero(header) && SizeField(header).Some? && next == offset + 512 + Padded(SizeField(header).value)
      && offset < next <= |data| && IsWhole(next)
  {
    WholeMember(offset, SizeField(data[offset..offset + 512]).value);
  }

  lemma BlockAdvances(data: seq<byte>, offset: nat)
    requires offset + 512 <= |data| <= MAX_FILE && IsWhole(offset) && ReadBlock(data, offset).Advance?
    ensures var next := ReadBlock(data, offset).next;
      offset < next <= |data| && IsWhole(next) && (Walk(data[offset..]).Some? <==> Walk(data[next..]).Some?)
  {
    NextBlock(data, offset);
    WalkPast(data, offset);
  }

  method WalkBlocks(data: seq<byte>) returns (failure: Option<LayoutError>)
    requires |data| <= MAX_FILE
    ensures failure.None? <==> Walk(data).Some?
  {
    WalkNeedsWholeBlocks(data);
    WholeIsMultiple(|data|);
    if |data| < 1024 || |data| % 512 != 0 { return Some(Truncated); }
    var offset: nat := 0;
    assert data[0..] == data;
    while offset < |data|
      invariant offset <= |data| && IsWhole(offset)
      invariant Walk(data).Some? <==> Walk(data[offset..]).Some?
      decreases |data| - offset
    {
      WholeBelow(offset, |data|);
      var step := ReadBlock(data, offset);
      if step.Stop? {
        BlockStops(data, offset);
        return step.failure;
      }
      BlockAdvances(data, offset);
      offset := step.next;
    }
    assert data[offset..] == [];
    return Some(MissingTerminator);
  }
}

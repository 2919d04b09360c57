// gzip framing with stored blocks only (crates/gascan-oci-fixture/src/lib.rs), against a reader written from
// section 2.3 of RFC 1952 (the member format) and section 3.2.4 of RFC 1951 (stored blocks).
module Gzip {
  import opened Wrappers
  import opened Bytes
  import opened Crc

  const CHUNK: nat := 0xffff
  const HEADER: seq<byte> := [0x1f, 0x8b, 0x08, 0x00, 0, 0, 0, 0, 0x00, 0x03]

  // ----------------------------------------------------------------------- little endian

  function LittleEndian(n: nat, width: nat): (b: seq<byte>)
    ensures |b| == width
  {
    if width == 0 then [] else [n % 256] + LittleEndian(n / 256, width - 1)
  }

  function ReadLittle(b: seq<byte>): nat {
    if b == [] then 0 else b[0] + 256 * ReadLittle(b[1..])
  }

  lemma {:induction false} LittleReadsBack(n: nat, width: nat)
    requires n < Capacity(width)
    ensures ReadLittle(LittleEndian(n, width)) == n
  {
    if width > 0 {
      LittleReadsBack(n / 256, width - 1);
      assert LittleEndian(n, width)[1..] == LittleEndian(n / 256, width - 1);
    }
  }

  lemma Capacities()
    ensures Capacity(2) == 0x1_0000 && Capacity(4) == 0x1_0000_0000
  {
  }

  lemma WordFits(w: Word)
    ensures Value(w) < 0x1_0000_0000
  {
    Pow2Of8();
    ValueIsSmall(w[..8]);
    ValueIsSmall(w[8..16]);
    ValueIsSmall(w[16..24]);
    ValueIsSmall(w[24..]);
    ValueOfBytes(w[..8], w[8..16], w[16..24], w[24..]);
    assert w[..8] + w[8..16] + w[16..24] + w[24..] == w;
  }

  // ------------------------------------------------------------------------------ writer

  function StoredBlock(last: bool, chunk: seq<byte>): seq<byte>
    requires |chunk| <= CHUNK
  {
    [if last then 1 else 0] + LittleEndian(|chunk|, 2) + LittleEndian(CHUNK - |chunk|, 2) + chunk
  }

  /** The deflate stream as its blocks: full chunks, then one last block that may be empty or full. */
  function Deflate(data: seq<byte>): seq<byte>
    decreases |data|
  {
    if |data| <= CHUNK then StoredBlock(true, data) else StoredBlock(false, data[..CHUNK]) + Deflate(data[CHUNK..])
  }

  function Trailer(crc: Word, size: nat): seq<byte> {
    LittleEndian(Value(crc), 4) + LittleEndian(size % 0x1_0000_0000, 4)
  }

  function GzipOf(data: seq<byte>): seq<byte> { HEADER + Deflate(data) + Trailer(Crc32Of(data), |data|) }

  /** Writes the member chunk by chunk; an empty input is one empty last block. */
  method Gzip(data: seq<byte>) returns (out: seq<byte>)
    ensures out == GzipOf(data)
    ensures Gunzip(out) == Some(data)
  {
    out := HEADER;
    if data == [] {
      out := out + [0x01, 0, 0, 0xff, 0xff];
      assert Deflate(data) == [0x01, 0, 0, 0xff, 0xff] by { EmptyBlock(); }
    }
    var at := 0;
    assert data[0..] == data;
    while at < |data|
      invariant at <= |data|
      invariant out + Pending(data, at) == HEADER + Deflate(data)
    {
      var end := if at + CHUNK < |data| then at + CHUNK else |data|;
      var length := end - at;
      ghost var before := out;
      out := out + [if end == |data| then 1 else 0];
      out := out + LittleEndian(length, 2);
      out := out + LittleEndian(CHUNK - length, 2);
      out := out + data[at..end];
      ChunkWritten(data, at, end, before, out);
      at := end;
    }
    assert out == HEADER + Deflate(data);
    var crc := Crc32(data);
    out := out + LittleEndian(Value(crc), 4);
    out := out + LittleEndian(|data| % 0x1_0000_0000, 4);
    assert out == GzipOf(data);
    GunzipRecovers(data);
  }

  /** What the loop still has to write from offset `at`. */
  function Pending(data: seq<byte>, at: nat): seq<byte>
    requires at <= |data|
  {
    if at == |data| then [] else Deflate(data[at..])
  }

  lemma EmptyBlock()
    ensures StoredBlock(true, []) == [0x01, 0, 0, 0xff, 0xff]
  {
    assert LittleEndian(0, 2) == [0, 0];
    assert LittleEndian(CHUNK, 2) == [0xff, 0xff];
  }

  lemma ChunkWritten(data: seq<byte>, at: nat, end: nat, before: seq<byte>, after: seq<byte>)
    requires at < end <= |data| && end == if at + CHUNK < |data| then at + CHUNK else |data|
    requires after == before + [if end == |data| then 1
      else 0] + LittleEndian(end - at, 2) + LittleEndian(CHUNK - (end - at), 2) + data[at..end]
    ensures after + Pending(data, end) == before + Pending(data, at)
  {
    var rest := data[at..];
    var block := StoredBlock(end == |data|, data[at..end]);
    assert after == before + block;
    if end == |data| {
      assert data[at..end] == rest;
    } else {
      assert rest[..CHUNK] == data[at..end] && rest[CHUNK..] == data[end..];
      ConcatAssociates(before, block, Deflate(data[end..]));
    }
  }

  // ------------------------------------------------------------------------------ reader

  /** One stored block: whether it is the last, its bytes, and what follows it. */
  function ReadBlock(b: seq<byte>): Option<(bool, seq<byte>, seq<byte>)> {
    if |b| < 5 || (b[0] / 2) % 4 != 0 then None
    else
      var length := ReadLittle(b[1..3]);
      if length + ReadLittle(b[3..5]) != 0xffff || |b| < 5 + length then None
      else Some((b[0] % 2 == 1, b[5..5 + length], b[5 + length..]))
  }

  /** The bytes of a stream of stored blocks, and what follows the last of them. */
  function Inflate(b: seq<byte>): Option<(seq<byte>, seq<byte>)>
    decreases |b|
  {
    match ReadBlock(b)
    case None => None
    case Some((last, chunk, rest)) =>
      if last then Some((chunk, rest))
      else
        match Inflate(rest)
        case None => None
        case Some((more, trailer)) => Some((chunk + more, trailer))
  }

  /** A single member without optional fields, its checksum taken with the table form of the CRC. */
  function Gunzip(b: seq<byte>): Option<seq<byte>> {
    if |b| < 10 || b[..4] != [0x1f, 0x8b, 8, 0] then None
    else
      match Inflate(b[10..])
      case None => None
      case Some((data, trailer)) =>
        if TrailerFits(data, trailer) then Some(data) else None
  }

  predicate TrailerFits(data: seq<byte>, trailer: seq<byte>) {
    && |trailer| == 8
    && ReadLittle(trailer[..4]) == Value(Not(Fold(TableFeed, ALL_ONES, data)))
    && ReadLittle(trailer[4..]) == |data| % 0x1_0000_0000
  }

  lemma BlockReadsBack(last: bool, chunk: seq<byte>, rest: seq<byte>)
    requires |chunk| <= CHUNK
    ensures ReadBlock(StoredBlock(last, chunk) + rest) == Some((last, chunk, rest))
  {
    var length, complement := LittleEndian(|chunk|, 2), LittleEndian(CHUNK - |chunk|, 2);
    Capacities();
    LittleReadsBack(|chunk|, 2);
    LittleReadsBack(CHUNK - |chunk|, 2);
    var b := StoredBlock(last, chunk) + rest;
    assert b[1..3] == length && b[3..5] == complement;
    assert b[5..5 + |chunk|] == chunk && b[5 + |chunk|..] == rest;
  }

  /** Decoding the blocks gives the data back and stops exactly where they end. */
  lemma {:induction false} InflateRecovers(data: seq<byte>, rest: seq<byte>)
    ensures Inflate(Deflate(data) + rest) == Some((data, rest))
    decreases |data|
  {
    if |data| <= CHUNK {
      InflateBlock(true, data, rest);
    } else {
      InflateRecovers(data[CHUNK..], rest);
      InflateBlock(false, data[..CHUNK], Deflate(data[CHUNK..]) + rest);
      ConcatAssociates(StoredBlock(false, data[..CHUNK]), Deflate(data[CHUNK..]), rest);
      assert data[..CHUNK] + data[CHUNK..] == data;
    }
  }

  /** Decoding from one block on. */
  lemma InflateBlock(last: bool, chunk: seq<byte>, rest: seq<byte>)
    requires |chunk| <= CHUNK
    ensures Inflate(StoredBlock(last, chunk) + rest)
         == if last then Some((chunk, rest))
            else match Inflate(rest) case None => None case Some((more, trailer)) => Some((chunk + more, trailer))
  {
    BlockReadsBack(last, chunk, rest);
  }

  /** Reading `Deflate(data)` under any trailer: the member is accepted exactly when the trailer fits. */
  lemma MemberAccepted(data: seq<byte>, crc: Word, size: nat)
    ensures Gunzip(HEADER + Deflate(data) + Trailer(crc, size))
         == if Value(crc) == Value(Crc32Of(data)) && size % 0x1_0000_0000 == |data| % 0x1_0000_0000 then Some(data)
           else None
  {
    var trailer := Trailer(crc, size);
    HeaderIsRead(Deflate(data) + trailer);
    ConcatAssociates(HEADER, Deflate(data), trailer);
    InflateRecovers(data, trailer);
    TrailerReadsBack(data, crc, size);
  }

  lemma HeaderIsRead(body: seq<byte>)
    ensures |HEADER + body| >= 10 && (HEADER + body)[..4] == [0x1f, 0x8b, 8, 0] && (HEADER + body)[10..] == body
  {
  }

  lemma TrailerReadsBack(data: seq<byte>, crc: Word, size: nat)
    ensures TrailerFits(data, Trailer(crc, size))
       <==> Value(crc) == Value(Crc32Of(data)) && size % 0x1_0000_0000 == |data| % 0x1_0000_0000
  {
    var low, high := LittleEndian(Value(crc), 4), LittleEndian(size % 0x1_0000_0000, 4);
    Capacities();
    WordFits(crc);
    LittleReadsBack(Value(crc), 4);
    LittleReadsBack(size % 0x1_0000_0000, 4);
    ConcatSlices(low, high);
    BitwiseIsTableForm(data);
  }

  /** What is written reads back as exactly the input, for every input. */
  lemma GunzipRecovers(data: seq<byte>)
    ensures Gunzip(GzipOf(data)) == Some(data)
  {
    MemberAccepted(data, Crc32Of(data), |data|);
  }

  lemma {:induction false} ValueIsFaithful(a: seq<bool>, b: seq<bool>)
    requires |a| == |b| && Value(a) == Value(b)
    ensures a == b
  {
    if a != [] {
      ValueIsFaithful(a[1..], b[1..]);
      assert a == [a[0]] + a[1..] && b == [b[0]] + b[1..];
    }
  }

  /** A member whose stored bytes differ in one place from what was checksummed is refused. */
  lemma DamageIsRefused(data: seq<byte>, k: nat, b: byte)
    requires k < |data| && data[k] != b
    ensures Gunzip(HEADER + Deflate(data[k := b]) + Trailer(Crc32Of(data), |data|)) == None
  {
    MemberAccepted(data[k := b], Crc32Of(data), |data|);
    OneByteChangesCrc(data, k, b);
    if Value(Crc32Of(data)) == Value(Crc32Of(data[k := b])) {
      ValueIsFaithful(Crc32Of(data), Crc32Of(data[k := b]));
    }
  }
}

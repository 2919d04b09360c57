// The hand-written ustar writer (crates/gascan-oci-fixture/src/lib.rs), against the walker in module Tar.
// Field offsets and widths are those of the ustar Interchange Format of the POSIX pax utility.
module Ustar {
  import opened Wrappers
  import opened Bytes
  import opened Tar

  // ------------------------------------------------------------------ number fields

  /** `width` octal digits, most significant first. */
  function Octal(n: nat, width: nat): (d: seq<byte>)
    ensures |d| == width
  {
    if width == 0 then [] else Octal(n / 8, width - 1) + [48 + n % 8]
  }

  lemma {:induction false} OctalReadsBack(n: nat, width: nat)
    requires n < Pow8(width) && width <= 12
    ensures forall k | 0 <= k < width :: IsOctal(Octal(n, width)[k])
    ensures OctalValue(Octal(n, width)) == Some(n)
  {
    if width > 0 {
      OctalReadsBack(n / 8, width - 1);
      assert Octal(n, width)[..width - 1] == Octal(n / 8, width - 1);
    }
  }

  lemma {:induction false} TakeAllDigits(d: seq<byte>)
    requires forall k | 0 <= k < |d| :: IsOctal(d[k])
    ensures TakeDigits(d + [0]) == d
  {
    if d != [] {
      assert (d + [0])[1..] == d[1..] + [0];
      TakeAllDigits(d[1..]);
    }
  }

  /** A size below 8^11 is read back from the field that was written. */
  lemma SizeFieldReadsBack(size: nat)
    requires size < Pow8(11)
    ensures ParseOctal(Octal(size, 11) + [0]) == Some(size)
  {
    OctalReadsBack(size, 11);
    TakeAllDigits(Octal(size, 11));
    assert SkipPad(Octal(size, 11) + [0]) == Octal(size, 11) + [0];
  }

  // -------------------------------------------------------------------------- header

  function Put(h: seq<byte>, at: nat, b: seq<byte>): (r: seq<byte>)
    requires at + |b| <= |h|
    ensures |r| == |h|
  {
    h[..at] + b + h[at + |b|..]
  }

  lemma PutInside(h: seq<byte>, at: nat, b: seq<byte>)
    requires at + |b| <= |h|
    ensures Put(h, at, b)[at..at + |b|] == b
  {
  }

  lemma PutElsewhere(h: seq<byte>, at: nat, b: seq<byte>, lo: nat, hi: nat)
    requires at + |b| <= |h| && lo <= hi <= |h| && (hi <= at || at + |b| <= lo)
    ensures Put(h, at, b)[lo..hi] == h[lo..hi]
  {
  }

  function Sum(s: seq<byte>): nat {
    if s == [] then 0 else Sum(s[..|s| - 1]) + s[|s| - 1]
  }

  lemma {:induction false} SumIsSmall(s: seq<byte>)
    ensures Sum(s) <= 255 * |s|
  {
    if s != [] { SumIsSmall(s[..|s| - 1]); }
  }

  const USTAR_MAGIC: seq<byte> := [117, 115, 116, 97, 114, 0]
  const ROOT: seq<byte> := [114, 111, 111, 116]
  const SPACES: seq<byte> := [32, 32, 32, 32, 32, 32, 32, 32]

  /** The fields up to the modification time. */
  function Front(name: seq<byte>, mode: nat, size: nat): (h: seq<byte>)
    requires |name| < 100
    ensures |h| == 512
  {
    var h := Put(Zeros(512), 0, name);
    var h := Put(h, 100, Octal(mode % 0x1000, 7) + [0]);
    var h := Put(h, 108, Octal(0, 7) + [0]);
    var h := Put(h, 116, Octal(0, 7) + [0]);
    var h := Put(h, 124, Octal(size, 11) + [0]);
    Put(h, 136, Octal(0, 11) + [0])
  }

  /** The rest of the fields, with spaces where the checksum will be. */
  function Back(front: seq<byte>, typeflag: byte): (h: seq<byte>)
    requires |front| == 512
    ensures |h| == 512
  {
    var h := Put(front, 148, SPACES);
    var h := Put(h, 156, [typeflag]);
    var h := Put(h, 257, USTAR_MAGIC);
    var h := Put(h, 263, [48, 48]);
    var h := Put(h, 265, ROOT);
    Put(h, 297, ROOT)
  }

  function Unsummed(name: seq<byte>, mode: nat, typeflag: byte, size: nat): (h: seq<byte>)
    requires |name| < 100
    ensures |h| == 512
  {
    Back(Front(name, mode, size), typeflag)
  }

  function Header(name: seq<byte>, mode: nat, typeflag: byte, size: nat): (h: seq<byte>)
    requires |name| < 100
    ensures |h| == 512
  {
    var h := Unsummed(name, mode, typeflag, size);
    Put(h, 148, Octal(Sum(h), 6) + [0, 32])
  }

  lemma UnsummedFields(name: seq<byte>, mode: nat, typeflag: byte, size: nat)
    requires |name| < 100
    ensures var h := Unsummed(name, mode, typeflag, size);
      && h[124..136] == Octal(size, 11) + [0]
      && h[148..156] == SPACES
      && h[257..263] == USTAR_MAGIC
  {
    var h1 := Put(Front(name, mode, size), 148, SPACES);
    var h2 := Put(h1, 156, [typeflag]);
    var h3 := Put(h2, 257, USTAR_MAGIC);
    var h4 := Put(h3, 263, [48, 48]);
    var h5 := Put(h4, 265, ROOT);
    FrontSize(name, mode, size);
    PutElsewhere(Front(name, mode, size), 148, SPACES, 124, 136);
    PutInside(Front(name, mode, size), 148, SPACES);
    PutElsewhere(h1, 156, [typeflag], 124, 136);
    PutElsewhere(h1, 156, [typeflag], 148, 156);
    PutElsewhere(h2, 257, USTAR_MAGIC, 124, 136);
    PutElsewhere(h2, 257, USTAR_MAGIC, 148, 156);
    PutInside(h2, 257, USTAR_MAGIC);
    PutElsewhere(h3, 263, [48, 48], 124, 136);
    PutElsewhere(h3, 263, [48, 48], 148, 156);
    PutElsewhere(h3, 263, [48, 48], 257, 263);
    PutElsewhere(h4, 265, ROOT, 124, 136);
    PutElsewhere(h4, 265, ROOT, 148, 156);
    PutElsewhere(h4, 265, ROOT, 257, 263);
    PutElsewhere(h5, 297, ROOT, 124, 136);
    PutElsewhere(h5, 297, ROOT, 148, 156);
    PutElsewhere(h5, 297, ROOT, 257, 263);
  }

  lemma FrontSize(name: seq<byte>, mode: nat, size: nat)
    requires |name| < 100
    ensures Front(name, mode, size)[124..136] == Octal(size, 11) + [0]
  {
    var h1 := Put(Zeros(512), 0, name);
    var h2 := Put(h1, 100, Octal(mode % 0x1000, 7) + [0]);
    var h3 := Put(h2, 108, Octal(0, 7) + [0]);
    var h4 := Put(h3, 116, Octal(0, 7) + [0]);
    var h5 := Put(h4, 124, Octal(size, 11) + [0]);
    PutInside(h4, 124, Octal(size, 11) + [0]);
    PutElsewhere(h5, 136, Octal(0, 11) + [0], 124, 136);
  }

  /** A written header is never a terminator, and its size is the one written. */
  lemma HeaderReadsBack(name: seq<byte>, mode: nat, typeflag: byte, size: nat)
    requires |name| < 100 && size < Pow8(11)
    ensures !AllZero(Header(name, mode, typeflag, size))
    ensures SizeField(Header(name, mode, typeflag, size)) == Some(size)
  {
    var u := Unsummed(name, mode, typeflag, size);
    var h := Header(name, mode, typeflag, size);
    UnsummedFields(name, mode, typeflag, size);
    PutElsewhere(u, 148, Octal(Sum(u), 6) + [0, 32], 124, 136);
    PutElsewhere(u, 148, Octal(Sum(u), 6) + [0, 32], 257, 263);
    SizeFieldReadsBack(size);
    assert h[257] == h[257..263][0] == 117;
  }

  lemma SpacesComeBack(u: seq<byte>, field: seq<byte>)
    requires |u| == 512 && |field| == 8 && u[148..156] == SPACES
    ensures Put(Put(u, 148, field), 148, SPACES) == u
  {
    assert u == u[..148] + u[148..156] + u[156..];
  }

  /** The checksum field holds the sum of the header taken with spaces in that field, as ustar defines it. */
  lemma ChecksumIsCorrect(name: seq<byte>, mode: nat, typeflag: byte, size: nat)
    requires |name| < 100
    ensures var h := Header(name, mode, typeflag, size);
      OctalValue(h[148..154]) == Some(Sum(Put(h, 148, SPACES)))
  {
    var u := Unsummed(name, mode, typeflag, size);
    var h := Header(name, mode, typeflag, size);
    var field := Octal(Sum(u), 6) + [0, 32];
    UnsummedFields(name, mode, typeflag, size);
    PutInside(u, 148, field);
    assert h[148..154] == h[148..156][..6] == Octal(Sum(u), 6);
    SpacesComeBack(u, field);
    SumIsSmall(u);
    assert Pow8(3) == 512;
    assert Pow8(6) == 0x4_0000;
    OctalReadsBack(Sum(u), 6);
  }

  method Write(buffer: array<byte>, at: nat, b: seq<byte>)
    requires at + |b| <= buffer.Length
    modifies buffer
    ensures buffer[..] == Put(old(buffer[..]), at, b)
  {
    for n := 0 to |b|
      invariant buffer[..] == Put(old(buffer[..]), at, b[..n])
    {
      PutStep(old(buffer[..]), at, b, n);
      buffer[at + n] := b[n];
    }
    assert b[..|b|] == b;
  }

  lemma PutStep(h: seq<byte>, at: nat, b: seq<byte>, n: nat)
    requires at + |b| <= |h| && n < |b|
    ensures Put(h, at, b[..n + 1]) == Put(h, at, b[..n])[at + n := b[n]]
  {
  }

  method WriteFront(buffer: array<byte>, name: seq<byte>, mode: nat, size: nat)
    requires buffer.Length == 512 && buffer[..] == Zeros(512) && |name| < 100
    modifies buffer
    ensures buffer[..] == Front(name, mode, size)
  {
    Write(buffer, 0, name);
    Write(buffer, 100, Octal(mode % 0x1000, 7) + [0]);
    Write(buffer, 108, Octal(0, 7) + [0]);
    Write(buffer, 116, Octal(0, 7) + [0]);
    Write(buffer, 124, Octal(size, 11) + [0]);
    Write(buffer, 136, Octal(0, 11) + [0]);
  }

  method WriteBack(buffer: array<byte>, typeflag: byte)
    requires buffer.Length == 512
    modifies buffer
    ensures buffer[..] == Back(old(buffer[..]), typeflag)
  {
    Write(buffer, 148, SPACES);
    Write(buffer, 156, [typeflag]);
    Write(buffer, 257, USTAR_MAGIC);
    Write(buffer, 263, [48, 48]);
    Write(buffer, 265, ROOT);
    Write(buffer, 297, ROOT);
  }

  method Total(buffer: array<byte>) returns (sum: nat)
    ensures sum == Sum(buffer[..])
  {
    sum := 0;
    for n := 0 to buffer.Length
      invariant sum == Sum(buffer[..n])
    {
      SumStep(buffer[..], n);
      assert buffer[..][..n] == buffer[..n] && buffer[..][..n + 1] == buffer[..n + 1];
      sum := sum + buffer[n];
    }
    assert buffer[..buffer.Length] == buffer[..];
  }

  /** The header is filled field by field; the checksum is the sum of the finished header. */
  method UstarHeader(name: seq<byte>, mode: nat, typeflag: byte, size: nat) returns (header: seq<byte>)
    requires |name| < 100 && size < Pow8(11)
    ensures header == Header(name, mode, typeflag, size)
  {
    var buffer := new byte[512](_ => 0);
    assert buffer[..] == Zeros(512);
    WriteFront(buffer, name, mode, size);
    WriteBack(buffer, typeflag);
    var sum := Total(buffer);
    Write(buffer, 148, Octal(sum, 6) + [0, 32]);
    header := buffer[..];
  }

  lemma SumStep(s: seq<byte>, n: nat)
    requires n < |s|
    ensures Sum(s[..n + 1]) == Sum(s[..n]) + s[n]
  {
    assert s[..n + 1][..n] == s[..n];
  }

  // ------------------------------------------------------------------------- archive

  const REGULAR: byte := 48
  const DIRECTORY: byte := 53

  datatype LayerFile = LayerFile(name: seq<byte>, mode: nat, contents: seq<byte>)

  datatype LayerDirectory = LayerDirectory(name: seq<byte>, mode: nat)

  predicate Writable(directories: seq<LayerDirectory>, files: seq<LayerFile>) {
    && (forall d | d in directories :: |d.name| < 100)
    && (forall f | f in files :: |f.name| < 100 && |f.contents| < Pow8(11))
  }

  /** A header block that names `name` and announces its kind, the low bits of its mode, and its size. */
  predicate Announces(header: seq<byte>, name: seq<byte>, mode: nat, typeflag: byte, size: nat) {
    && |header| == 512 && |name| < 100 && !AllZero(header)
    && SizeField(header) == Some(size) && header[..|name|] == name && header[|name|] == 0
    && header[156] == typeflag && OctalValue(header[100..107]) == Some(mode % 0x1000)
  }

  /** The member that records an entry: its header, its contents, zeros to the end of the block. */
  predicate Records(m: Member, name: seq<byte>, mode: nat, typeflag: byte, contents: seq<byte>) {
    && Announces(m.header, name, mode, typeflag, |contents|)
    && m.payload == contents + Zeros(Padded(|contents|) - |contents|)
  }

  lemma HeaderNames(name: seq<byte>, mode: nat, typeflag: byte, size: nat)
    requires |name| < 100
    ensures var h := Header(name, mode, typeflag, size); h[..|name|] == name && h[|name|] == 0
  {
    var h := Header(name, mode, typeflag, size);
    var u := Unsummed(name, mode, typeflag, size);
    var h0 := Put(Zeros(512), 0, name);
    assert h0[..100] == name + Zeros(100 - |name|);
    FrontName(name, mode, size);
    UnsummedName(name, mode, typeflag, size);
    PutElsewhere(u, 148, Octal(Sum(u), 6) + [0, 32], 0, 100);
    assert h[..100] == h0[..100];
    FieldNames(h, name);
  }

  lemma FieldNames(h: seq<byte>, name: seq<byte>)
    requires |h| == 512 && |name| < 100 && h[..100] == name + Zeros(100 - |name|)
    ensures h[..|name|] == name && h[|name|] == 0
  {
    assert h[..|name|] == h[..100][..|name|] && h[|name|] == h[..100][|name|];
  }

  lemma FrontName(name: seq<byte>, mode: nat, size: nat)
    requires |name| < 100
    ensures Front(name, mode, size)[0..100] == Put(Zeros(512), 0, name)[0..100]
  {
    var h1 := Put(Zeros(512), 0, name);
    var h2 := Put(h1, 100, Octal(mode % 0x1000, 7) + [0]);
    var h3 := Put(h2, 108, Octal(0, 7) + [0]);
    var h4 := Put(h3, 116, Octal(0, 7) + [0]);
    var h5 := Put(h4, 124, Octal(size, 11) + [0]);
    PutElsewhere(h1, 100, Octal(mode % 0x1000, 7) + [0], 0, 100);
    PutElsewhere(h2, 108, Octal(0, 7) + [0], 0, 100);
    PutElsewhere(h3, 116, Octal(0, 7) + [0], 0, 100);
    PutElsewhere(h4, 124, Octal(size, 11) + [0], 0, 100);
    PutElsewhere(h5, 136, Octal(0, 11) + [0], 0, 100);
  }

  lemma UnsummedName(name: seq<byte>, mode: nat, typeflag: byte, size: nat)
    requires |name| < 100
    ensures Unsummed(name, mode, typeflag, size)[0..100] == Front(name, mode, size)[0..100]
  {
    var h1 := Put(Front(name, mode, size), 148, SPACES);
    var h2 := Put(h1, 156, [typeflag]);
    var h3 := Put(h2, 257, USTAR_MAGIC);
    var h4 := Put(h3, 263, [48, 48]);
    var h5 := Put(h4, 265, ROOT);
    PutElsewhere(Front(name, mode, size), 148, SPACES, 0, 100);
    PutElsewhere(h1, 156, [typeflag], 0, 100);
    PutElsewhere(h2, 257, USTAR_MAGIC, 0, 100);
    PutElsewhere(h3, 263, [48, 48], 0, 100);
    PutElsewhere(h4, 265, ROOT, 0, 100);
    PutElsewhere(h5, 297, ROOT, 0, 100);
  }

  lemma FrontMode(name: seq<byte>, mode: nat, size: nat)
    requires |name| < 100
    ensures Front(name, mode, size)[100..108] == Octal(mode % 0x1000, 7) + [0]
  {
    var h1 := Put(Zeros(512), 0, name);
    var h2 := Put(h1, 100, Octal(mode % 0x1000, 7) + [0]);
    var h3 := Put(h2, 108, Octal(0, 7) + [0]);
    var h4 := Put(h3, 116, Octal(0, 7) + [0]);
    var h5 := Put(h4, 124, Octal(size, 11) + [0]);
    PutInside(h1, 100, Octal(mode % 0x1000, 7) + [0]);
    PutElsewhere(h2, 108, Octal(0, 7) + [0], 100, 108);
    PutElsewhere(h3, 116, Octal(0, 7) + [0], 100, 108);
    PutElsewhere(h4, 124, Octal(size, 11) + [0], 100, 108);
    PutElsewhere(h5, 136, Octal(0, 11) + [0], 100, 108);
  }

  lemma UnsummedKind(name: seq<byte>, mode: nat, typeflag: byte, size: nat)
    requires |name| < 100
    ensures var h := Unsummed(name, mode, typeflag, size);
      h[100..108] == Front(name, mode, size)[100..108] && h[156..157] == [typeflag]
  {
    var h1 := Put(Front(name, mode, size), 148, SPACES);
    var h2 := Put(h1, 156, [typeflag]);
    var h3 := Put(h2, 257, USTAR_MAGIC);
    var h4 := Put(h3, 263, [48, 48]);
    var h5 := Put(h4, 265, ROOT);
    PutElsewhere(Front(name, mode, size), 148, SPACES, 100, 108);
    PutElsewhere(h1, 156, [typeflag], 100, 108);
    PutElsewhere(h2, 257, USTAR_MAGIC, 100, 108);
    PutElsewhere(h3, 263, [48, 48], 100, 108);
    PutElsewhere(h4, 265, ROOT, 100, 108);
    PutElsewhere(h5, 297, ROOT, 100, 108);
    PutInside(h1, 156, [typeflag]);
    PutElsewhere(h2, 257, USTAR_MAGIC, 156, 157);
    PutElsewhere(h3, 263, [48, 48], 156, 157);
    PutElsewhere(h4, 265, ROOT, 156, 157);
    PutElsewhere(h5, 297, ROOT, 156, 157);
  }

  /** The kind and the low twelve bits of the mode are those written. */
  lemma KindReadsBack(name: seq<byte>, mode: nat, typeflag: byte, size: nat)
    requires |name| < 100
    ensures var h := Header(name, mode, typeflag, size);
      h[156] == typeflag && OctalValue(h[100..107]) == Some(mode % 0x1000)
  {
    var u := Unsummed(name, mode, typeflag, size);
    var h := Header(name, mode, typeflag, size);
    FrontMode(name, mode, size);
    UnsummedKind(name, mode, typeflag, size);
    PutElsewhere(u, 148, Octal(Sum(u), 6) + [0, 32], 100, 108);
    PutElsewhere(u, 148, Octal(Sum(u), 6) + [0, 32], 156, 157);
    assert h[156] == h[156..157][0];
    assert h[100..107] == h[100..108][..7] == Octal(mode % 0x1000, 7);
    assert Pow8(4) == 0x1000;
    assert Pow8(7) > Pow8(4);
    OctalReadsBack(mode % 0x1000, 7);
  }

  method HeaderBlock(name: seq<byte>, mode: nat, typeflag: byte, size: nat) returns (header: seq<byte>)
    requires |name| < 100 && size < Pow8(11)
    ensures Announces(header, name, mode, typeflag, size)
  {
    header := UstarHeader(name, mode, typeflag, size);
    KindReadsBack(name, mode, typeflag, size);
    HeaderReadsBack(name, mode, typeflag, size);
    HeaderNames(name, mode, typeflag, size);
  }

  lemma RecordsIsMember(m: Member, name: seq<byte>, mode: nat, typeflag: byte, contents: seq<byte>)
    requires Records(m, name, mode, typeflag, contents)
    ensures IsMember(m)
  {
  }

  lemma {:induction false} FlattenConcat(a: seq<Member>, b: seq<Member>)
    ensures Flatten(a + b) == Flatten(a) + Flatten(b)
  {
    if a == [] {
      assert a + b == b;
    } else {
      FlattenConcat(a[1..], b);
      assert (a + b)[1..] == a[1..] + b && (a + b)[0] == a[0];
      ConcatAssociates(a[0].header + a[0].payload, Flatten(a[1..]), Flatten(b));
    }
  }

  lemma FlattenAppend(ms: seq<Member>, m: Member)
    ensures Flatten(ms + [m]) == Flatten(ms) + (m.header + m.payload)
  {
    FlattenConcat(ms, [m]);
    assert [m][1..] == [];
  }

  /** Rounded up to whole 10240-byte records. */
  function ToRecord(n: nat): (r: nat)
    ensures r % 10240 == 0 && n <= r < n + 10240
  {
    (n + 10239) / 10240 * 10240
  }

  function Resize(s: seq<byte>, n: nat): seq<byte>
    requires n >= |s|
  {
    s + Zeros(n - |s|)
  }

  lemma PaddedAfterWhole(a: nat, c: nat)
    requires IsWhole(a)
    ensures Padded(a + c) == a + Padded(c)
  {
    WholeIsMultiple(a);
    var q := a / 512;
    assert a == 512 * q;
    assert (512 * q + c + 511) / 512 == q + (c + 511) / 512;
  }

  lemma ResizedToBlock(prefix: seq<byte>, header: seq<byte>, contents: seq<byte>)
    requires IsWhole(|prefix|) && |header| == 512
    ensures var data := prefix + header + contents;
      && Resize(data, Padded(|data|)) == prefix + (header + (contents + Zeros(Padded(|contents|) - |contents|)))
      && IsWhole(Padded(|data|))
  {
    var padding := Zeros(Padded(|contents|) - |contents|);
    WholeSum(|prefix|, 512);
    PaddedAfterWhole(|prefix| + 512, |contents|);
    ConcatAssociates(prefix + header, contents, padding);
    ConcatAssociates(prefix, header, contents + padding);
  }

  /** Header and contents, then zeros to the next whole block. A directory has no contents. */
  method AppendMember(prefix: seq<byte>, name: seq<byte>, mode: nat, typeflag: byte, contents: seq<byte>)
    returns (archive: seq<byte>, ghost m: Member)
    requires IsWhole(|prefix|) && |name| < 100 && |contents| < Pow8(11)
    ensures Records(m, name, mode, typeflag, contents)
    ensures archive == prefix + (m.header + m.payload) && IsWhole(|archive|)
  {
    var header := HeaderBlock(name, mode, typeflag, |contents|);
    m := Member(header, contents + Zeros(Padded(|contents|) - |contents|));
    var data := prefix + header + contents;
    archive := Resize(data, Padded(|data|));
    ResizedToBlock(prefix, header, contents);
  }

  /** The members written for the directories, in order. */
  predicate RecordsDirectories(ms: seq<Member>, directories: seq<LayerDirectory>) {
    && |ms| == |directories|
    && forall k | 0 <= k < |ms| :: Records(ms[k], directories[k].name, directories[k].mode, DIRECTORY, [])
  }

  predicate RecordsFiles(ms: seq<Member>, files: seq<LayerFile>) {
    && |ms| == |files|
    && forall k | 0 <= k < |ms| :: Records(ms[k], files[k].name, files[k].mode, REGULAR, files[k].contents)
  }

  lemma OneMoreDirectory(ms: seq<Member>, directories: seq<LayerDirectory>, n: nat, m: Member)
    requires n < |directories| && RecordsDirectories(ms, directories[..n])
    requires Records(m, directories[n].name, directories[n].mode, DIRECTORY, [])
    ensures RecordsDirectories(ms + [m], directories[..n + 1])
  {
  }

  lemma OneMoreFile(ms: seq<Member>, files: seq<LayerFile>, n: nat, m: Member)
    requires n < |files| && RecordsFiles(ms, files[..n])
    requires Records(m, files[n].name, files[n].mode, REGULAR, files[n].contents)
    ensures RecordsFiles(ms + [m], files[..n + 1])
  {
  }

  method AppendDirectories(directories: seq<LayerDirectory>) returns (archive: seq<byte>, ghost ms: seq<Member>)
    requires forall d | d in directories :: |d.name| < 100
    ensures RecordsDirectories(ms, directories) && archive == Flatten(ms) && IsWhole(|archive|)
  {
    archive, ms := [], [];
    for n := 0 to |directories|
      invariant RecordsDirectories(ms, directories[..n]) && archive == Flatten(ms) && IsWhole(|archive|)
    {
      ghost var m;
      archive, m := AppendMember(archive, directories[n].name, directories[n].mode, DIRECTORY, []);
      FlattenAppend(ms, m);
      OneMoreDirectory(ms, directories, n, m);
      ms := ms + [m];
    }
    assert directories[..|directories|] == directories;
  }

  method AppendFiles(prefix: seq<byte>, files: seq<LayerFile>) returns (archive: seq<byte>, ghost ms: seq<Member>)
    requires IsWhole(|prefix|) && forall f | f in files :: |f.name| < 100 && |f.contents| < Pow8(11)
    ensures RecordsFiles(ms, files) && archive == prefix + Flatten(ms)
  {
    archive, ms := prefix, [];
    for n := 0 to |files|
      invariant RecordsFiles(ms, files[..n]) && archive == prefix + Flatten(ms) && IsWhole(|archive|)
    {
      ghost var m;
      archive, m := AppendMember(archive, files[n].name, files[n].mode, REGULAR, files[n].contents);
      FlattenAppend(ms, m);
      ConcatAssociates(prefix, Flatten(ms), m.header + m.payload);
      OneMoreFile(ms, files, n, m);
      ms := ms + [m];
    }
    assert files[..|files|] == files;
  }

  lemma RecordsFileIsMember(m: Member, f: LayerFile)
    requires Records(m, f.name, f.mode, REGULAR, f.contents)
    ensures IsMember(m)
  {
    RecordsIsMember(m, f.name, f.mode, REGULAR, f.contents);
  }

  lemma RecordsAreMembers(ms: seq<Member>, directories: seq<LayerDirectory>, files: seq<LayerFile>, fs: seq<Member>)
    requires RecordsDirectories(ms, directories) && RecordsFiles(fs, files)
    ensures AreMembers(ms + fs)
  {
    forall m | m in ms + fs ensures IsMember(m) {
      var k :| 0 <= k < |ms + fs| && (ms + fs)[k] == m;
      if k < |ms| { RecordsIsMember(m, directories[k].name, directories[k].mode, DIRECTORY, []); }
      else { RecordsFileIsMember(m, files[k - |ms|]); }
    }
  }

  /**
   * The archive is a sequence of members, two zero blocks, and zero padding to a 10240-byte record. Cut at its
   * terminator (`end`) it is a layout whose members are the directories and then the files that were given, with their
   * kinds, names, modes, sizes and contents.
   */
  method WriteLayer(directories: seq<LayerDirectory>, files: seq<LayerFile>)
    returns (archive: seq<byte>, end: nat, ghost ds: seq<Member>, ghost fs: seq<Member>)
    requires Writable(directories, files)
    ensures RecordsDirectories(ds, directories) && RecordsFiles(fs, files)
    ensures end <= |archive| && IsLayoutOf(archive[..end], ds + fs)
    ensures archive[end..] == Zeros(|archive| - end)
    ensures |archive| == ToRecord(end)
  {
    var head, body;
    head, ds := AppendDirectories(directories);
    body, fs := AppendFiles(head, files);
    FlattenConcat(ds, fs);
    RecordsAreMembers(ds, directories, files, fs);
    var closed := body + Zeros(1024);
    end := |closed|;
    archive := Resize(closed, ToRecord(|closed|));
    ConcatSlices(closed, Zeros(|archive| - end));
  }

  lemma {:induction false} PaddingIsTrailing(ms: seq<Member>, p: nat)
    requires AreMembers(ms) && p > 0
    ensures Walk(Flatten(ms) + Zeros(1024) + Zeros(p)) == None
  {
    var s := Flatten(ms) + Zeros(1024) + Zeros(p);
    if ms == [] {
      assert AllZero(s[..512]);
      assert |s| != 1024;
    } else {
      var m, tail := ms[0], Flatten(ms[1..]) + Zeros(1024) + Zeros(p);
      assert m in ms;
      assert s == m.header + m.payload + tail;
      NextIsDetermined(m, tail);
      PaddingIsTrailing(ms[1..], p);
      assert s[512 + |m.payload|..] == tail;
    }
  }

  /** The walker refuses record padding: a written archive as a whole is accepted exactly when it needed none. */
  lemma WholeArchiveAcceptedIffUnpadded(archive: seq<byte>, end: nat, ms: seq<Member>)
    requires end <= |archive| && IsLayoutOf(archive[..end], ms) && archive[end..] == Zeros(|archive| - end)
    ensures (exists all :: IsLayoutOf(archive, all)) <==> end == |archive|
  {
    assert archive == archive[..end] + archive[end..];
    if end == |archive| {
      assert archive == archive[..end];
      assert IsLayoutOf(archive, ms);
    } else {
      PaddingIsTrailing(ms, |archive| - end);
      forall all | IsLayoutOf(archive, all) ensures Walk(archive) == Some(all) { WalkIsComplete(archive, all); }
      assert archive == Flatten(ms) + Zeros(1024) + Zeros(|archive| - end);
    }
  }

  /** The empty layer is padded to a record, and the walker refuses it. */
  method EmptyLayer() returns (archive: seq<byte>, members: Option<seq<Member>>)
    ensures |archive| == 10240 && archive[..1024] == Zeros(1024) && members == Walk(archive) == None
  {
    var end;
    ghost var ds, fs;
    archive, end, ds, fs := WriteLayer([], []);
    assert ds + fs == [] && archive[..end] == Zeros(1024);
    assert archive == archive[..end] + archive[end..];
    PaddingIsTrailing([], |archive| - end);
    members := Walk(archive);
  }
}

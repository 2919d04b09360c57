// The recogniser for OpenSSH Ed25519 public keys (crates/gascan-core/src/policy.rs): section 4 of RFC 8709 over the
// strings of section 5 of RFC 4251. A non-ASCII character never survives decoding, so lengths count characters.
module SshKey {
  import opened Wrappers
  import opened Bytes
  import opened Base64

  const KIND := "ssh-ed25519"
  const KIND_BYTES: seq<byte> := [115, 115, 104, 45, 101, 100, 50, 53, 53, 49, 57]
  const KEY_BYTES: nat := 32

  // ------------------------------------------------------------------------------- words

  predicate IsSpace(c: char) { c == ' ' || c == '\t' || c == '\n' || c == '\r' || c as int == 12 }

  predicate IsWord(s: string) { s != "" && forall k | 0 <= k < |s| :: !IsSpace(s[k]) }

  /** The length of the word `s` starts with. */
  function WordLength(s: string): (n: nat)
    ensures n <= |s| && (forall k | 0 <= k < n :: !IsSpace(s[k])) && (n < |s| ==> IsSpace(s[n]))
  {
    if s == "" || IsSpace(s[0]) then 0 else 1 + WordLength(s[1..])
  }

  /** `split_ascii_whitespace` */
  function Words(s: string): seq<string> {
    if s == "" then []
    else if IsSpace(s[0]) then Words(s[1..])
    else
      var n := WordLength(s);
      assert n > 0;
      [s[..n]] + Words(s[n..])
  }

  lemma WordThenRest(word: string, rest: string)
    requires IsWord(word) && (rest != "" ==> IsSpace(rest[0]))
    ensures Words(word + rest) == [word] + Words(rest)
  {
    var s := word + rest;
    var n := WordLength(s);
    assert n >= |word| by { assert forall k | 0 <= k < |word| :: s[k] == word[k]; }
    assert n <= |word| by { assert rest != "" ==> s[|word|] == rest[0]; }
    assert s[..n] == word && s[n..] == rest;
  }

  function Spaces(s: string): (n: nat)
    ensures n <= |s| && (n > 0 ==> IsSpace(s[0])) && (n < |s| ==> !IsSpace(s[n]))
  {
    if s == "" || !IsSpace(s[0]) then 0 else 1 + Spaces(s[1..])
  }

  lemma {:induction false} LeadingSpacesDoNotCount(s: string)
    ensures Words(s) == Words(s[Spaces(s)..])
  {
    if Spaces(s) == 0 {
      assert s[0..] == s;
    } else {
      LeadingSpacesDoNotCount(s[1..]);
      assert s[1..][Spaces(s[1..])..] == s[Spaces(s)..];
    }
  }

  /** Where the first word starts, and that the other words are what follows it. */
  lemma {:induction false} FirstWord(s: string)
    requires Words(s) != []
    ensures var n, w := Spaces(s), Words(s)[0];
      && IsWord(w) && n + |w| <= |s| && s[n..n + |w|] == w
      && (n > 0 ==> IsSpace(s[0]))
      && Words(s[n + |w|..]) == Words(s)[1..]
      && (n + |w| < |s| ==> IsSpace(s[n + |w|]))
  {
    LeadingSpacesDoNotCount(s);
    var n := Spaces(s);
    var text := s[n..];
    var length := WordLength(text);
    assert text != "" && Words(text) == [text[..length]] + Words(text[length..]);
    assert text[..length] == s[n..n + length] && text[length..] == s[n + length..];
  }

  /** Two words that fill all but one character are the whole text, with one space between. */
  lemma {:induction false} TwoWordsFill(s: string)
    requires |Words(s)| == 2 && |s| == |Words(s)[0]| + 1 + |Words(s)[1]|
    ensures s == Words(s)[0] + [s[|Words(s)[0]|]] + Words(s)[1]
  {
    var first, second := Words(s)[0], Words(s)[1];
    FirstWord(s);
    var rest := s[Spaces(s) + |first|..];
    assert Words(rest) == [second];
    FirstWord(rest);
    OneBetween(s, Spaces(s), first, Spaces(rest), second);
  }

  lemma OneBetween(s: string, n: nat, first: string, m: nat, second: string)
    requires |s| == |first| + 1 + |second| && IsWord(second)
    requires n + |first| <= |s| && s[n..n + |first|] == first
    requires var rest := s[n + |first|..];
      && (rest != "" ==> IsSpace(rest[0]))
      && m + |second| <= |rest| && rest[m..m + |second|] == second
    ensures s == first + [s[|first|]] + second
  {
    var rest := s[n + |first|..];
    assert rest[m] == rest[m..m + |second|][0] == second[0];
    assert n == 0 && m == 1;
  }

  // ------------------------------------------------------------------------- wire strings

  function BigEndian(n: nat, width: nat): (b: seq<byte>)
    ensures |b| == width
  {
    if width == 0 then [] else BigEndian(n / 256, width - 1) + [n % 256]
  }

  function ReadBig(b: seq<byte>): nat {
    if b == [] then 0 else 256 * ReadBig(b[..|b| - 1]) + b[|b| - 1]
  }

  lemma {:induction false} BigReadsBack(n: nat, width: nat)
    requires n < Capacity(width)
    ensures ReadBig(BigEndian(n, width)) == n
  {
    if width > 0 {
      BigReadsBack(n / 256, width - 1);
      assert BigEndian(n, width)[..width - 1] == BigEndian(n / 256, width - 1);
    }
  }

  lemma {:induction false} BigWritesBack(b: seq<byte>)
    ensures BigEndian(ReadBig(b), |b|) == b && ReadBig(b) < Capacity(|b|)
  {
    if b != [] {
      BigWritesBack(b[..|b| - 1]);
      assert b == b[..|b| - 1] + [b[|b| - 1]];
    }
  }

  /** A string of section 5 of RFC 4251: a four-byte length, then the content. */
  function Wire(content: seq<byte>): seq<byte> { BigEndian(|content|, 4) + content }

  /** `ssh_wire_string`: the first string and what follows it. */
  function ReadWire(b: seq<byte>): Option<(seq<byte>, seq<byte>)> {
    if |b| < 4 then None
    else
      var length := ReadBig(b[..4]);
      if length > |b| - 4 then None else Some((b[4..4 + length], b[4 + length..]))
  }

  lemma WireReadsBack(content: seq<byte>, rest: seq<byte>)
    requires |content| < Capacity(4)
    ensures ReadWire(Wire(content) + rest) == Some((content, rest))
  {
    var b := Wire(content) + rest;
    BigReadsBack(|content|, 4);
    assert b[..4] == BigEndian(|content|, 4);
    assert b[4..4 + |content|] == content && b[4 + |content|..] == rest;
  }

  lemma WireWritesBack(b: seq<byte>)
    requires ReadWire(b).Some?
    ensures b == Wire(ReadWire(b).value.0) + ReadWire(b).value.1
  {
    BigWritesBack(b[..4]);
  }

  // ---------------------------------------------------------------------------- recogniser

  predicate IsSshPublicKey(key: string) {
    var fields := Words(key);
    && |fields| == 2
    && var kind, encoded := fields[0], fields[1];
    && kind == KIND
    && |key| == |kind| + 1 + |encoded|
    && key[|kind|] == ' '
    && IsKeyBlob(Decode(STANDARD, encoded))
  }

  predicate IsKeyBlob(blob: Option<seq<byte>>) {
    && blob.Some?
    && var first := ReadWire(blob.value);
    && first.Some?
    && var second := ReadWire(first.value.1);
    && second.Some?
    && first.value.0 == KIND_BYTES && |second.value.0| == KEY_BYTES && second.value.1 == []
  }

  /** The blob of section 4 of RFC 8709. */
  function Blob(key: seq<byte>): seq<byte> { Wire(KIND_BYTES) + Wire(key) }

  /** The one line OpenSSH writes for a key, without a comment. */
  function Printed(key: seq<byte>): string { KIND + [' '] + Encode(STANDARD, Blob(key)) }

  lemma SmallLengths()
    ensures Capacity(4) == 0x1_0000_0000 && |KIND_BYTES| == 11 && |KIND| == 11
  {
  }

  lemma BlobIsAccepted(key: seq<byte>)
    requires |key| == KEY_BYTES
    ensures IsKeyBlob(Some(Blob(key)))
  {
    SmallLengths();
    WireReadsBack(KIND_BYTES, Wire(key));
    WireReadsBack(key, []);
    assert Wire(key) + [] == Wire(key);
  }

  lemma AcceptedIsBlob(blob: seq<byte>) returns (key: seq<byte>)
    requires IsKeyBlob(Some(blob))
    ensures |key| == KEY_BYTES && blob == Blob(key)
  {
    WireWritesBack(blob);
    var rest := ReadWire(blob).value.1;
    WireWritesBack(rest);
    key := ReadWire(rest).value.0;
    assert Wire(key) + [] == Wire(key);
  }

  lemma {:induction false} EncodedIsWord(b: seq<byte>)
    ensures forall k | 0 <= k < |Encode(STANDARD, b)| :: !IsSpace(Encode(STANDARD, b)[k])
  {
    if |b| >= 3 {
      EncodedIsWord(b[3..]);
      GroupIsWord(b[0], b[1], b[2]);
    }
  }

  lemma GroupIsWord(x: byte, y: byte, z: byte)
    ensures IsWord(EncodeGroup(STANDARD, x, y, z))
  {
  }

  lemma PrintedIsAccepted(key: seq<byte>)
    requires |key| == KEY_BYTES
    ensures IsSshPublicKey(Printed(key))
  {
    var encoded := Encode(STANDARD, Blob(key));
    StandardIsProper();
    EncodedDecodes(STANDARD, Blob(key));
    BlobIsAccepted(key);
    EncodedIsWord(Blob(key));
    EncodedIsNotEmpty(key);
    KindIsWord();
    TwoFields(KIND, encoded);
    FieldsFill(KIND, encoded);
  }

  lemma EncodedIsNotEmpty(key: seq<byte>)
    requires |key| == KEY_BYTES
    ensures Encode(STANDARD, Blob(key)) != ""
  {
    assert |Blob(key)| > 2;
  }

  lemma KindIsWord()
    ensures IsWord(KIND)
  {
  }

  lemma FieldsFill(kind: string, encoded: string)
    ensures var text := kind + [' '] + encoded; |text| == |kind| + 1 + |encoded| && text[|kind|] == ' '
  {
  }

  lemma TwoFields(kind: string, encoded: string)
    requires IsWord(kind) && IsWord(encoded)
    ensures Words(kind + [' '] + encoded) == [kind, encoded]
  {
    var rest := [' '] + encoded;
    WordThenRest(kind, rest);
    assert kind + rest == kind + [' '] + encoded;
    WordThenRest(encoded, "");
    assert encoded + "" == encoded && rest[1..] == encoded;
  }

  lemma AcceptedIsPrinted(text: string) returns (key: seq<byte>)
    requires IsSshPublicKey(text)
    ensures |key| == KEY_BYTES && text == Printed(key)
  {
    var encoded := Words(text)[1];
    TwoWordsFill(text);
    key := AcceptedIsBlob(Decode(STANDARD, encoded).value);
    StandardIsProper();
    DecodedEncodes(STANDARD, encoded);
  }

  lemma PrintedIsInjective(a: seq<byte>, b: seq<byte>)
    requires |a| == |b| == KEY_BYTES && Printed(a) == Printed(b)
    ensures a == b
  {
    StandardIsProper();
    var x, y := Encode(STANDARD, Blob(a)), Encode(STANDARD, Blob(b));
    SameSuffix(KIND + [' '], x, y);
    EncodedDecodes(STANDARD, Blob(a));
    EncodedDecodes(STANDARD, Blob(b));
    BlobsDiffer(a, b);
  }

  lemma SameSuffix(prefix: string, x: string, y: string)
    requires prefix + x == prefix + y
    ensures x == y
  {
    assert (prefix + x)[|prefix|..] == x && (prefix + y)[|prefix|..] == y;
  }

  lemma BlobsDiffer(a: seq<byte>, b: seq<byte>)
    requires |a| == |b|
    ensures Blob(a) == Blob(b) ==> a == b
  {
    assert Blob(a)[|Blob(a)| - |a|..] == a && Blob(b)[|Blob(b)| - |b|..] == b;
  }

  /** A text is accepted exactly when it is the printed form of a key, and then of only one. */
  lemma AcceptedIffPrinted(text: string)
    ensures IsSshPublicKey(text) <==> exists key: seq<byte> :: |key| == KEY_BYTES && text == Printed(key)
    ensures forall a: seq<byte>, b: seq<byte> |
      |a| == KEY_BYTES && |b| == KEY_BYTES && Printed(a) == text && Printed(b) == text :: a == b
  {
    if IsSshPublicKey(text) { var key := AcceptedIsPrinted(text); }
    forall key: seq<byte> | |key| == KEY_BYTES && text == Printed(key) ensures IsSshPublicKey(text)
      { PrintedIsAccepted(key); }
    forall a: seq<byte>, b: seq<byte> | |a| == KEY_BYTES && |b| == KEY_BYTES && Printed(a) == text && Printed(b) == text
      ensures a == b {
      PrintedIsInjective(a, b);
    }
  }
}

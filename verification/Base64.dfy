// Base 64 as in section 4 of RFC 4648, with the strict decoder `is_ssh_public_key` uses: padding is required and the
// bits that padding leaves over are zero.
module Base64 {
  import opened Wrappers
  import opened Bytes

  // ---------------------------------------------------------------------------- alphabet

  function Symbol(v: int): char {
    if 0 <= v < 26 then 'A' + v as char
    else if 26 <= v < 52 then 'a' + (v - 26) as char
    else if 52 <= v < 62 then '0' + (v - 52) as char
    else if v == 62 then '+'
    else '/'
  }

  function ValueOf(c: char): Option<int> {
    if 'A' <= c <= 'Z' then Some(c as int - 'A' as int)
    else if 'a' <= c <= 'z' then Some(c as int - 'a' as int + 26)
    else if '0' <= c <= '9' then Some(c as int - '0' as int + 52)
    else if c == '+' then Some(62)
    else if c == '/' then Some(63)
    else None
  }

  datatype Alphabet = Alphabet(symbol: int -> char, value: char -> Option<int>)

  const STANDARD := Alphabet(Symbol, ValueOf)

  /** Symbols and their values are inverse to each other, and the padding character is not among them. */
  ghost predicate Proper(a: Alphabet) {
    && (forall v | 0 <= v < 64 :: a.value(a.symbol(v)) == Some(v))
    && (forall c | a.value(c).Some? :: 0 <= a.value(c).value < 64 && a.symbol(a.value(c).value) == c)
    && a.value('=') == None
  }

  lemma SymbolReadsBack(v: int)
    requires 0 <= v < 64
    ensures ValueOf(Symbol(v)) == Some(v)
  {
  }

  lemma ValueWritesBack(c: char)
    requires ValueOf(c).Some?
    ensures 0 <= ValueOf(c).value < 64 && Symbol(ValueOf(c).value) == c
  {
  }

  lemma StandardIsProper()
    ensures Proper(STANDARD)
  {
    forall v | 0 <= v < 64 ensures ValueOf(Symbol(v)) == Some(v) { SymbolReadsBack(v); }
    forall c | ValueOf(c).Some? ensures 0 <= ValueOf(c).value < 64 && Symbol(ValueOf(c).value) == c {
      ValueWritesBack(c);
    }
  }

  // ------------------------------------------------------------------------ groups of six

  function SixBits(x: int, y: int, z: int): (int, int, int, int) {
    (x / 4, x % 4 * 16 + y / 16, y % 16 * 4 + z / 64, z % 64)
  }

  function EightBits(a: int, b: int, c: int, d: int): (int, int, int) {
    (a * 4 + b / 16, b % 16 * 16 + c / 4, c % 4 * 64 + d)
  }

  predicate IsByte(n: int) { 0 <= n < 256 }

  predicate IsSextet(n: int) { 0 <= n < 64 }

  lemma RegroupBytes(x: int, y: int, z: int)
    requires IsByte(x) && IsByte(y) && IsByte(z)
    ensures var (a, b, c, d) := SixBits(x, y, z);
      IsSextet(a) && IsSextet(b) && IsSextet(c) && IsSextet(d) && EightBits(a, b, c, d) == (x, y, z)
  {
    Digits16(x % 4, y / 16);
    Digits4(y % 16, z / 64);
  }

  lemma Digits16(high: int, low: int)
    requires 0 <= low < 16
    ensures (high * 16 + low) / 16 == high && (high * 16 + low) % 16 == low
  {
  }

  lemma Digits4(high: int, low: int)
    requires 0 <= low < 4
    ensures (high * 4 + low) / 4 == high && (high * 4 + low) % 4 == low
  {
  }

  lemma Digits64(high: int, low: int)
    requires 0 <= low < 64
    ensures (high * 64 + low) / 64 == high && (high * 64 + low) % 64 == low
  {
  }

  lemma RegroupSextets(a: int, b: int, c: int, d: int)
    requires IsSextet(a) && IsSextet(b) && IsSextet(c) && IsSextet(d)
    ensures var (x, y, z) := EightBits(a, b, c, d);
      IsByte(x) && IsByte(y) && IsByte(z) && SixBits(x, y, z) == (a, b, c, d)
  {
    Digits4(a, b / 16);
    Digits16(b % 16, c / 4);
    Digits64(c % 4, d);
  }

  // ----------------------------------------------------------------------------- encoder

  function Encode(alphabet: Alphabet, b: seq<byte>): string {
    if b == [] then ""
    else if |b| <= 2 then EncodePadded(alphabet, b)
    else EncodeGroup(alphabet, b[0], b[1], b[2]) + Encode(alphabet, b[3..])
  }

  function EncodeGroup(alphabet: Alphabet, x: byte, y: byte, z: byte): string {
    var (a, b, c, d) := SixBits(x, y, z);
    [alphabet.symbol(a), alphabet.symbol(b), alphabet.symbol(c), alphabet.symbol(d)]
  }

  /** One or two last bytes, filled up with zero bits. */
  function EncodePadded(alphabet: Alphabet, bytes: seq<byte>): string
    requires 1 <= |bytes| <= 2
  {
    var (a, b, c, d) := SixBits(bytes[0], if |bytes| == 2 then bytes[1] else 0, 0);
    [alphabet.symbol(a), alphabet.symbol(b), if |bytes| == 2 then alphabet.symbol(c) else '=', '=']
  }

  // ----------------------------------------------------------------------------- decoder

  function Decode(alphabet: Alphabet, s: string): Option<seq<byte>> {
    if s == "" then Some([])
    else if |s| < 4 then None
    else if |s| == 4 && s[3] == '=' then DecodePadded(alphabet, s)
    else
      match DecodeGroup(alphabet, s[..4])
      case None => None
      case Some(group) =>
        match Decode(alphabet, s[4..])
        case None => None
        case Some(rest) => Some(group + rest)
  }

  function Values(alphabet: Alphabet, s: string): Option<(int, int, int, int)>
    requires |s| == 4
  {
    var a, b, c, d := alphabet.value(s[0]), alphabet.value(s[1]), alphabet.value(s[2]), alphabet.value(s[3]);
    if a.Some? && b.Some? && c.Some? && d.Some? then Some((a.value, b.value, c.value, d.value)) else None
  }

  function ToBytes(x: int, y: int, z: int): Option<seq<byte>> {
    if IsByte(x) && IsByte(y) && IsByte(z) then Some([x, y, z]) else None
  }

  function DecodeGroup(alphabet: Alphabet, s: string): Option<seq<byte>>
    requires |s| == 4
  {
    match Values(alphabet, s)
    case None => None
    case Some((a, b, c, d)) => var (x, y, z) := EightBits(a, b, c, d); ToBytes(x, y, z)
  }

  /** A last group with padding; the bits beyond the last byte must be zero. */
  function DecodePadded(alphabet: Alphabet, s: string): Option<seq<byte>>
    requires |s| == 4
  {
    var a, b := alphabet.value(s[0]), alphabet.value(s[1]);
    var c := if s[2] == '=' then Some(0) else alphabet.value(s[2]);
    if a.None? || b.None? || c.None? then None
    else
      var (x, y, z) := EightBits(a.value, b.value, c.value, 0);
      if !IsByte(x) || !IsByte(y) || z != 0 then None
      else if s[2] != '=' then Some([x, y])
      else if y == 0 then Some([x])
      else None
  }

  // -------------------------------------------------------------------------- round trip

  lemma GroupDecodes(alphabet: Alphabet, x: byte, y: byte, z: byte)
    requires Proper(alphabet)
    ensures DecodeGroup(alphabet, EncodeGroup(alphabet, x, y, z)) == Some([x, y, z])
    ensures EncodeGroup(alphabet, x, y, z)[3] != '='
  {
    RegroupBytes(x, y, z);
  }

  lemma GroupEncodes(alphabet: Alphabet, s: string)
    requires Proper(alphabet) && |s| == 4 && DecodeGroup(alphabet, s).Some?
    ensures var g := DecodeGroup(alphabet, s).value; |g| == 3 && EncodeGroup(alphabet, g[0], g[1], g[2]) == s
  {
    var (a, b, c, d) := Values(alphabet, s).value;
    RegroupSextets(a, b, c, d);
  }

  lemma PaddedDecodes(alphabet: Alphabet, bytes: seq<byte>)
    requires Proper(alphabet) && 1 <= |bytes| <= 2
    ensures |EncodePadded(alphabet, bytes)| == 4 && EncodePadded(alphabet, bytes)[3] == '='
    ensures DecodePadded(alphabet, EncodePadded(alphabet, bytes)) == Some(bytes)
  {
    var y: byte := if |bytes| == 2 then bytes[1] else 0;
    var (a, b, c, d) := SixBits(bytes[0], y, 0);
    RegroupBytes(bytes[0], y, 0);
    assert d == 0 && bytes == if |bytes| == 2 then [bytes[0], bytes[1]] else [bytes[0]];
    assert alphabet.value(alphabet.symbol(c)) == Some(c);
  }

  lemma PaddedEncodes(alphabet: Alphabet, s: string)
    requires Proper(alphabet) && |s| == 4 && s[3] == '=' && DecodePadded(alphabet, s).Some?
    ensures var b := DecodePadded(alphabet, s).value; 1 <= |b| <= 2 && EncodePadded(alphabet, b) == s
  {
    var a, b := alphabet.value(s[0]).value, alphabet.value(s[1]).value;
    var c := if s[2] == '=' then 0 else alphabet.value(s[2]).value;
    RegroupSextets(a, b, c, 0);
  }

  lemma {:induction false} EncodedDecodes(alphabet: Alphabet, b: seq<byte>)
    requires Proper(alphabet)
    ensures Decode(alphabet, Encode(alphabet, b)) == Some(b)
  {
    if 1 <= |b| <= 2 {
      PaddedDecodes(alphabet, b);
    } else if |b| >= 3 {
      var group, rest := EncodeGroup(alphabet, b[0], b[1], b[2]), Encode(alphabet, b[3..]);
      GroupDecodes(alphabet, b[0], b[1], b[2]);
      EncodedDecodes(alphabet, b[3..]);
      assert (group + rest)[..4] == group && (group + rest)[4..] == rest;
      assert b == [b[0], b[1], b[2]] + b[3..];
    }
  }

  lemma {:induction false} DecodedEncodes(alphabet: Alphabet, s: string)
    requires Proper(alphabet) && Decode(alphabet, s).Some?
    ensures Encode(alphabet, Decode(alphabet, s).value) == s
  {
    if |s| == 4 && s[3] == '=' {
      PaddedEncodes(alphabet, s);
    } else if s != "" {
      GroupEncodes(alphabet, s[..4]);
      DecodedEncodes(alphabet, s[4..]);
      var group, rest := DecodeGroup(alphabet, s[..4]).value, Decode(alphabet, s[4..]).value;
      assert (group + rest)[3..] == rest;
      assert s == s[..4] + s[4..];
    }
  }

  /** A text decodes to some bytes exactly when it is their encoding. */
  lemma DecodesIffEncoded(alphabet: Alphabet, s: string, b: seq<byte>)
    requires Proper(alphabet)
    ensures Decode(alphabet, s) == Some(b) <==> s == Encode(alphabet, b)
  {
    EncodedDecodes(alphabet, b);
    if Decode(alphabet, s).Some? { DecodedEncodes(alphabet, s); }
  }
}

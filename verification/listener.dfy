/** Start-up of the listener example: the configured network key is given as text of
    32 hex digits, parsed into a key with `key_from_str` and added to the key store of
    a fresh parser. Text is modelled as the bytes of its UTF-8 encoding, which is what
    Rust's `str::len` counts and its byte-range slicing indexes. */
module Listener {
  import opened Types
  import Parser

  /** The key text holds two hex digits per key byte. */
  const KeyTextLength: nat := 32

  const Plus: Byte := 0x2B
  const Minus: Byte := 0x2D

  // ---------------------------------------------------------------- u8::from_str_radix

  /** An ASCII digit of base 16, either case. */
  predicate IsHexDigit(c: Byte) {
    0x30 <= c <= 0x39 || 0x41 <= c <= 0x46 || 0x61 <= c <= 0x66
  }

  function DigitValue(c: Byte): (d: nat)
    requires IsHexDigit(c)
    ensures d < 16
  {
    if c <= 0x39 then c - 0x30 else if c <= 0x46 then c - 0x41 + 10 else c - 0x61 + 10
  }

  /** Digits read from left to right into a `u8` with checked arithmetic: a byte that is
      not a digit or a value above 255 fails. */
  function Accumulate(digits: seq<Byte>): Option<Byte> {
    if digits == [] then Some(0)
    else
      match Accumulate(digits[..|digits| - 1])
      case None => None
      case Some(v) =>
        var c := digits[|digits| - 1];
        if !IsHexDigit(c) || 16 * v + DigitValue(c) > 255 then None
        else Some(16 * v + DigitValue(c))
  }

  /** `u8::from_str_radix(src, 16)`: empty text fails, a lone sign fails, one leading
      `+` is skipped (a `-` is not, and then fails as a digit). */
  function FromStrRadix16(src: seq<Byte>): Option<Byte> {
    if src == [] then None
    else if (src[0] == Plus || src[0] == Minus) && |src| == 1 then None
    else Accumulate(if src[0] == Plus then src[1..] else src)
  }

  /** A two-byte chunk parses exactly when it is two hex digits, or `+` and one hex
      digit; its value is the base-16 value of its digits. */
  lemma TwoByteChunk(a: Byte, b: Byte)
    ensures FromStrRadix16([a, b]).Some? <==> (IsHexDigit(a) || a == Plus) && IsHexDigit(b)
    ensures IsHexDigit(a) && IsHexDigit(b) ==> FromStrRadix16([a, b]) == Some(16 * DigitValue(a) + DigitValue(b))
    ensures a == Plus && IsHexDigit(b) ==> FromStrRadix16([a, b]) == Some(DigitValue(b))
  {
    assert [a][..0] == [] && [b][..0] == [];
    assert Accumulate([a]) == if IsHexDigit(a) then Some(DigitValue(a)) else None;
    assert Accumulate([b]) == if IsHexDigit(b) then Some(DigitValue(b)) else None;
    if a == Plus {
      assert [a, b][1..] == [b];
    } else {
      assert [a, b][..1] == [a];
    }
  }

  // ---------------------------------------------------------------- key_from_str

  /** Bytes `2i` and `2i+1` of the text: the chunk for key byte `i`. */
  function Chunk(s: seq<Byte>, i: nat): seq<Byte>
    requires 2 * i + 2 <= |s|
  {
    s[2 * i..2 * i + 2]
  }

  /** The key the text denotes: 32 bytes, each pair of them one key byte in base 16;
      anything else is an error. */
  function ParseKeyText(s: seq<Byte>): (r: Result<Key>)
    ensures |s| != KeyTextLength ==> r == Err
    ensures r.Ok? <==> |s| == KeyTextLength && forall i :: 0 <= i < 16 ==> FromStrRadix16(Chunk(s, i)).Some?
    ensures r.Ok? ==> forall i :: 0 <= i < 16 ==> FromStrRadix16(Chunk(s, i)) == Some(r.value.bytes[i])
  {
    if |s| != KeyTextLength then Err
    else if forall i :: 0 <= i < 16 ==> FromStrRadix16(Chunk(s, i)).Some? then
      Ok(Key(seq(16, i requires 0 <= i < 16 => FromStrRadix16(Chunk(s, i)).value)))
    else Err
  }

  /** `key_from_str`, with the bytes written into a `[u8; 16]` array one chunk at a time;
      the first chunk that does not parse ends it with an error. */
  method KeyFromStr(s: seq<Byte>) returns (r: Result<Key>)
    ensures r == ParseKeyText(s)
  {
    if |s| != KeyTextLength {
      return Err;
    }
    var offset := 0;
    var key := new Byte[16](_ => 0);
    for i := 0 to 16
      invariant offset == 2 * i
      invariant forall j :: 0 <= j < i ==> FromStrRadix16(Chunk(s, j)) == Some(key[j])
    {
      assert s[offset..offset + 2] == Chunk(s, i);
      match FromStrRadix16(s[offset..offset + 2]) {
        case None =>
          return Err;
        case Some(v) =>
          key[i] := v;
      }
      offset := offset + 2;
    }
    assert key[..] == ParseKeyText(s).value.bytes;
    r := Ok(Key(key[..]));
  }

  /** A key printed by `print_key` parses back to the same key. */
  lemma KeyTextRoundTrip(key: Key)
    ensures ParseKeyText(Parser.PrintKey(key)) == Ok(key)
  {
    var s := Parser.PrintKey(key);
    forall i | 0 <= i < 16
      ensures FromStrRadix16(Chunk(s, i)) == Some(key.bytes[i])
    {
      Parser.HexStringAt(key.bytes, i);
      HexByteRoundTrip(key.bytes[i]);
    }
    assert ParseKeyText(s).value.bytes == key.bytes;
  }

  lemma HexByteRoundTrip(b: Byte)
    ensures FromStrRadix16(Parser.HexByte(b)) == Some(b)
  {
    TwoByteChunk(Parser.HexDigit(b / 16), Parser.HexDigit(b % 16));
  }

  // ---------------------------------------------------------------- as the source slices text

  datatype KeyParse = Parsed(key: Key) | Rejected | Panicked

  /** `str::is_char_boundary`: no byte-range slice may start or end inside the UTF-8
      encoding of a character. */
  predicate IsCharBoundary(s: seq<Byte>, index: nat) {
    index == 0 || index == |s| || (index < |s| && (s[index] < 0x80 || s[index] >= 0xC0))
  }

  /** `key_from_str` as written: each chunk is taken as the string slice
      `&s[offset..offset + 2]`, which panics when either end is not a character
      boundary. */
  function KeyFromStrAsWritten(s: seq<Byte>): KeyParse {
    if |s| != KeyTextLength then Rejected else ChunksAsWritten(s, 0, [])
  }

  function ChunksAsWritten(s: seq<Byte>, i: nat, bytes: seq<Byte>): KeyParse
    requires |s| == KeyTextLength && i <= 16 && |bytes| == i
    decreases 16 - i
  {
    if i == 16 then Parsed(Key(bytes))
    else if !IsCharBoundary(s, 2 * i) || !IsCharBoundary(s, 2 * i + 2) then Panicked
    else
      match FromStrRadix16(Chunk(s, i))
      case None => Rejected
      case Some(b) => ChunksAsWritten(s, i + 1, bytes + [b])
  }

  function AsKeyParse(r: Result<Key>): KeyParse {
    match r
    case Ok(key) => Parsed(key)
    case Err => Rejected
  }

  /** Where the code as written does not panic it agrees with `ParseKeyText`, and on
      ASCII text it never panics. */
  lemma {:induction false} ChunksAsWrittenAgree(s: seq<Byte>, i: nat, bytes: seq<Byte>)
    requires |s| == KeyTextLength && i <= 16 && |bytes| == i
    requires forall j :: 0 <= j < i ==> FromStrRadix16(Chunk(s, j)) == Some(bytes[j])
    ensures ChunksAsWritten(s, i, bytes) == Panicked || ChunksAsWritten(s, i, bytes) == AsKeyParse(ParseKeyText(s))
    ensures (forall j :: 0 <= j < |s| ==> s[j] < 0x80) ==> ChunksAsWritten(s, i, bytes) != Panicked
    decreases 16 - i
  {
    if i == 16 {
      assert bytes == ParseKeyText(s).value.bytes;
    } else if IsCharBoundary(s, 2 * i) && IsCharBoundary(s, 2 * i + 2) {
      match FromStrRadix16(Chunk(s, i))
      case None =>
      case Some(b) =>
        ChunksAsWrittenAgree(s, i + 1, bytes + [b]);
    }
  }

  lemma KeyFromStrAsWrittenAgrees(s: seq<Byte>)
    ensures KeyFromStrAsWritten(s) == Panicked || KeyFromStrAsWritten(s) == AsKeyParse(ParseKeyText(s))
    ensures (forall j :: 0 <= j < |s| ==> s[j] < 0x80) ==> KeyFromStrAsWritten(s) != Panicked
  {
    if |s| == KeyTextLength {
      ChunksAsWrittenAgree(s, 0, []);
    }
  }

  /** The round trip also holds for the code as written: printed keys are ASCII. */
  lemma KeyTextRoundTripAsWritten(key: Key)
    ensures KeyFromStrAsWritten(Parser.PrintKey(key)) == Parsed(key)
  {
    KeyTextRoundTrip(key);
    KeyFromStrAsWrittenAgrees(Parser.PrintKey(key));
  }

  /** "0é" followed by 29 zeros: 32 bytes of valid UTF-8 whose first slice `[0..2]` ends
      inside the two-byte encoding of "é". */
  const MultibyteKeyText: seq<Byte> := [0x30, 0xC3, 0xA9] + seq(29, _ => 0x30)

  /** The code as written panics on this text where an error was meant. */
  lemma MultibyteKeyTextPanics()
    ensures |MultibyteKeyText| == KeyTextLength
    ensures KeyFromStrAsWritten(MultibyteKeyText) == Panicked
    ensures ParseKeyText(MultibyteKeyText) == Err
  {
    assert Chunk(MultibyteKeyText, 0) == [0x30, 0xC3];
    TwoByteChunk(0x30, 0xC3);
  }

  // ---------------------------------------------------------------- start-up

  /** The start-up seeding: a parser whose store holds the default link key, then the
      configured network key when its text parses. */
  method Start(networkKey: seq<Byte>, codec: Codec, cipher: Cipher) returns (parser: Parser.Parser)
    requires CodecValid(codec) && FitsBuffer(cipher, Parser.WorkBufferSize)
    ensures fresh(parser) && fresh(parser.security) && parser.Valid()
    ensures parser.security.keys == match ParseKeyText(networkKey)
                                    case Ok(key) => [DefaultLinkKey, key]
                                    case Err => [DefaultLinkKey]
  {
    parser := new Parser.Parser(codec, cipher);
    var parsed := KeyFromStr(networkKey);
    match parsed {
      case Ok(key) =>
        parser.security.AddKey(key);
      case Err =>
    }
  }
}

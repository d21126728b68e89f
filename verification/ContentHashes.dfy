/** SHA-256 content addresses and their textual form, `sha256:<64 lower-case hex digits>`. */
module ContentHashes {
  import opened Collections

  type Byte = x: int | 0 <= x < 256

  type Digest = bytes: seq<Byte> | |bytes| == 32 witness seq(32, _ => 0)

  datatype ContentHash = ContentHash(bytes: Digest)

  datatype ParseHashError = NotHex | WrongLength

  const PREFIX: string := "sha256:"
  const DIGITS: string := "0123456789abcdef"

  function HexDigit(n: int): (c: char)
    requires 0 <= n < 16
    ensures HexValue(c) == Some(n)
    ensures c != '\0' && c != '\n' && c != '.' && c != ':'
  {
    DIGITS[n]
  }

  /** The value of a hex digit in either case; anything else has none. */
  function HexValue(c: char): (v: Option<int>)
    ensures v.Some? ==> 0 <= v.value < 16
  {
    if '0' <= c <= '9' then Some((c as int) - ('0' as int))
    else if 'a' <= c <= 'f' then Some((c as int) - ('a' as int) + 10)
    else if 'A' <= c <= 'F' then Some((c as int) - ('A' as int) + 10)
    else None
  }

  function HexEncode(bytes: seq<Byte>): (s: string)
    ensures |s| == 2 * |bytes|
    ensures forall c :: c in s ==> HexValue(c).Some? && c != '\0' && c != '\n' && c != '.' && c != ':'
  {
    if bytes == [] then []
    else [HexDigit(bytes[0] / 16), HexDigit(bytes[0] % 16)] + HexEncode(bytes[1..])
  }

  /** Pairs of hex digits back to bytes; an odd count or a stray character fails. */
  function HexDecode(s: string): Option<seq<Byte>>
  {
    if s == [] then Some([])
    else if |s| == 1 then None
    else
      match (HexValue(s[0]), HexValue(s[1]), HexDecode(s[2..]))
      case (Some(hi), Some(lo), Some(rest)) => Some([16 * hi + lo] + rest)
      case _ => None
  }

  function ToPrefixed(h: ContentHash): (s: string)
    ensures |s| == 71
  {
    PREFIX + HexEncode(h.bytes)
  }

  function Parse(s: string): Result<ContentHash, ParseHashError>
  {
    var hexPart := if PREFIX <= s then s[|PREFIX|..] else s;
    match HexDecode(hexPart)
    case None => Err(NotHex)
    case Some(bytes) => if |bytes| == 32 then Ok(ContentHash(bytes)) else Err(WrongLength)
  }

  lemma {:induction false} HexDecodePair(s: string, hi: int, lo: int, rest: seq<Byte>)
    requires |s| >= 2 && HexValue(s[0]) == Some(hi) && HexValue(s[1]) == Some(lo) && HexDecode(s[2..]) == Some(rest)
    ensures 0 <= 16 * hi + lo < 256 && HexDecode(s) == Some([16 * hi + lo] + rest)
  {
  }

  lemma {:induction false} HexRoundTrip(bytes: seq<Byte>)
    ensures HexDecode(HexEncode(bytes)) == Some(bytes)
  {
    if bytes != [] {
      HexRoundTrip(bytes[1..]);
      var s := HexEncode(bytes);
      assert s[0] == HexDigit(bytes[0] / 16) && s[1] == HexDigit(bytes[0] % 16) && s[2..] == HexEncode(bytes[1..]);
      HexDecodePair(s, bytes[0] / 16, bytes[0] % 16, bytes[1..]);
      assert bytes == [bytes[0]] + bytes[1..];
    }
  }

  /** Both accepted spellings read back as the hash that was printed. */
  lemma {:induction false} PrintParseRoundTrip(h: ContentHash)
    ensures Parse(ToPrefixed(h)) == Ok(h)
    ensures Parse(HexEncode(h.bytes)) == Ok(h)
  {
    HexRoundTrip(h.bytes);
    var s := ToPrefixed(h);
    assert s[|PREFIX|..] == HexEncode(h.bytes);
    assert HexEncode(h.bytes)[0] in HexEncode(h.bytes);
    assert HexValue('s') == None;
  }

  lemma {:induction false} PrintInjective(a: ContentHash, b: ContentHash)
    requires ToPrefixed(a) == ToPrefixed(b)
    ensures a == b
  {
    PrintParseRoundTrip(a);
    PrintParseRoundTrip(b);
  }

  lemma {:induction false} HexInjective(a: ContentHash, b: ContentHash)
    requires HexEncode(a.bytes) == HexEncode(b.bytes)
    ensures a == b
  {
    HexRoundTrip(a.bytes);
    HexRoundTrip(b.bytes);
  }

  /** The printed form holds neither of the characters the canonical encodings use as separators. */
  lemma {:induction false} PrintedIsPlain(h: ContentHash)
    ensures '\0' !in ToPrefixed(h) && '\n' !in ToPrefixed(h)
  {
    assert '\0' !in PREFIX && '\n' !in PREFIX;
  }

  predicate AllHex(s: string)
  {
    forall c :: c in s ==> HexValue(c).Some?
  }

  lemma {:induction false} HexDecodeExact(s: string)
    ensures HexDecode(s).Some? <==> |s| % 2 == 0 && AllHex(s)
    ensures HexDecode(s).Some? ==> 2 * |HexDecode(s).value| == |s|
  {
    if |s| >= 2 {
      HexDecodeExact(s[2..]);
      assert s == [s[0], s[1]] + s[2..];
      assert s[0] in s && s[1] in s;
    } else if |s| == 1 {
      assert HexDecode(s) == None;
    }
  }

  /** What the parser accepts, and which error it gives for the rest. */
  lemma {:induction false} ParseExact(s: string)
    ensures var hexPart := if PREFIX <= s then s[|PREFIX|..] else s;
            && (Parse(s).Ok? <==> |hexPart| == 64 && AllHex(hexPart))
            && (Parse(s) == Err(WrongLength) <==> |hexPart| != 64 && |hexPart| % 2 == 0 && AllHex(hexPart))
  {
    HexDecodeExact(if PREFIX <= s then s[|PREFIX|..] else s);
  }

  // --- the text itself -------------------------------------------------------

  const UPPER_DIGITS: string := "0123456789ABCDEF"

  /** Digits are read in either case, most significant first in their pair. */
  lemma {:induction false} HexValueExact(c: char, v: int)
    ensures HexValue(c) == Some(v) <==> 0 <= v < 16 && (c == DIGITS[v] || c == UPPER_DIGITS[v])
  {
  }

  lemma {:induction false} HexEncodeAt(bytes: seq<Byte>, i: nat)
    requires i < |bytes|
    ensures var s := HexEncode(bytes); s[2 * i] == DIGITS[bytes[i] / 16] && s[2 * i + 1] == DIGITS[bytes[i] % 16]
  {
    if i > 0 {
      var rest := HexEncode(bytes[1..]);
      HexEncodeAt(bytes[1..], i - 1);
      assert HexEncode(bytes)[2..] == rest;
      assert HexEncode(bytes)[2 * i] == rest[2 * (i - 1)] && HexEncode(bytes)[2 * i + 1] == rest[2 * (i - 1) + 1];
    }
  }

  /** What is printed: the prefix, then each byte as two lower-case digits, the high half first. */
  lemma {:induction false} PrintExact(h: ContentHash, i: nat)
    requires i < 32
    ensures var s := ToPrefixed(h);
            s[..7] == "sha256:" && s[7 + 2 * i] == DIGITS[h.bytes[i] / 16] && s[7 + 2 * i + 1] == DIGITS[h.bytes[i] % 16]
  {
    HexEncodeAt(h.bytes, i);
    var s, hex := ToPrefixed(h), HexEncode(h.bytes);
    assert |PREFIX| == 7 && s[..7] == PREFIX;
    assert s[7 + 2 * i] == hex[2 * i] && s[7 + 2 * i + 1] == hex[2 * i + 1];
  }

  lemma {:induction false} HexDecodeAt(s: string, i: nat)
    requires HexDecode(s).Some? && i < |HexDecode(s).value|
    ensures 2 * i + 1 < |s|
    ensures var (hi, lo) := (HexValue(s[2 * i]), HexValue(s[2 * i + 1]));
            hi.Some? && lo.Some? && HexDecode(s).value[i] == 16 * hi.value + lo.value
  {
    if i > 0 {
      HexDecodeAt(s[2..], i - 1);
      assert s[2..][2 * (i - 1)] == s[2 * i] && s[2..][2 * (i - 1) + 1] == s[2 * i + 1];
    }
  }

  /** What is read: byte i is the value of the i-th pair of digits after the optional prefix. */
  lemma {:induction false} ParsedBytes(s: string, i: nat)
    requires Parse(s).Ok? && i < 32
    ensures var hexPart := if PREFIX <= s then s[|PREFIX|..] else s;
            |hexPart| == 64
            && HexValue(hexPart[2 * i]).Some? && HexValue(hexPart[2 * i + 1]).Some?
            && Parse(s).value.bytes[i] == 16 * HexValue(hexPart[2 * i]).value + HexValue(hexPart[2 * i + 1]).value
  {
    ParseExact(s);
    HexDecodeAt(if PREFIX <= s then s[|PREFIX|..] else s, i);
  }
}

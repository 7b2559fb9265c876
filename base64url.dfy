/** Go's `base64.RawURLEncoding`: the URL- and filename-safe alphabet of
    section 5 of RFC 4648, with the `=` padding omitted as section 3.2 of
    RFC 4648 allows. The decoder is the non-strict one Go uses: it skips
    carriage returns and line feeds and ignores the unused low bits of a
    final partial quantum. */
module Base64Url {
  import opened Prelude

  /** The value of one base64 character, 0 to 63. */
  type sextet = x: int | 0 <= x < 64

  /** Marker that Go's decode map holds for a character outside the alphabet. */
  const Invalid: int := 0xFF

  /** Go's `CorruptInputError`; the byte offset it carries is not modelled. */
  datatype CorruptInputError = CorruptInput

  /** The 64 characters of the URL-safe alphabet. */
  predicate InAlphabet(c: char) {
    ('A' <= c <= 'Z') || ('a' <= c <= 'z') || ('0' <= c <= '9') || c == '-' || c == '_'
  }

  predicate IsNewline(c: char) {
    c == '\r' || c == '\n'
  }

  /** A string made only of alphabet characters: what the encoder produces. */
  predicate IsToken(s: string) {
    forall i :: 0 <= i < |s| ==> InAlphabet(s[i])
  }

  /** The character for a 6-bit value (the table of section 5 of RFC 4648). */
  function Char(v: sextet): (c: char)
    ensures InAlphabet(c)
    ensures c != '+' && c != '/' && c != '='
  {
    if v < 26 then ('A' as int + v) as char
    else if v < 52 then ('a' as int + (v - 26)) as char
    else if v < 62 then ('0' as int + (v - 52)) as char
    else if v == 62 then '-'
    else '_'
  }

  /** Go's decode map: the value of an alphabet character, `Invalid` otherwise. */
  function DecodeMap(c: char): (r: int)
    ensures r == Invalid || 0 <= r < 64
    ensures r != Invalid <==> InAlphabet(c)
  {
    if 'A' <= c <= 'Z' then c as int - 'A' as int
    else if 'a' <= c <= 'z' then c as int - 'a' as int + 26
    else if '0' <= c <= '9' then c as int - '0' as int + 52
    else if c == '-' then 62
    else if c == '_' then 63
    else Invalid
  }

  /** Char and DecodeMap are inverse bijections between 0..63 and the alphabet. */
  lemma CharDecodeMap(v: sextet)
    ensures DecodeMap(Char(v)) == v
  {
  }

  lemma DecodeMapChar(c: char)
    requires InAlphabet(c)
    ensures 0 <= DecodeMap(c) < 64 && Char(DecodeMap(c)) == c
  {
  }

  // ---------------------------------------------------------------------
  // Encoding

  /** The four 6-bit values of the 24-bit group b0 b1 b2, most significant
      first. A partial group is completed with zero bytes. */
  function S0(b0: byte): sextet { b0 as int / 4 }
  function S1(b0: byte, b1: byte): sextet { (b0 as int % 4) * 16 + b1 as int / 16 }
  function S2(b1: byte, b2: byte): sextet { (b1 as int % 16) * 4 + b2 as int / 64 }
  function S3(b2: byte): sextet { b2 as int % 64 }

  /** The three bytes of the 24-bit group v0 v1 v2 v3 of 6-bit values. */
  function B0(v0: sextet, v1: sextet): byte { (v0 * 4 + v1 / 16) as byte }
  function B1(v1: sextet, v2: sextet): byte { ((v1 % 16) * 16 + v2 / 4) as byte }
  function B2(v2: sextet, v3: sextet): byte { ((v2 % 4) * 64 + v3) as byte }

  /** Joining the 6-bit values of a group gives back its bytes. */
  lemma JoinSplit0(b0: byte, b1: byte)
    ensures B0(S0(b0), S1(b0, b1)) == b0
  {
  }

  lemma JoinSplit1(b0: byte, b1: byte, b2: byte)
    ensures B1(S1(b0, b1), S2(b1, b2)) == b1
  {
    LowNibble(b0 as int % 4, b1 as int / 16);
    HighNibble(b1 as int % 16, b2 as int / 64);
  }

  lemma LowNibble(x: int, h: int)
    requires 0 <= x < 4 && 0 <= h < 16
    ensures (x * 16 + h) % 16 == h
  {
  }

  lemma HighNibble(l: int, y: int)
    requires 0 <= l < 16 && 0 <= y < 4
    ensures (l * 4 + y) / 4 == l
  {
  }

  lemma JoinSplit2(b1: byte, b2: byte)
    ensures B2(S2(b1, b2), S3(b2)) == b2
  {
  }

  /** One full quantum: three bytes become four characters. */
  function EncodeQuantum(b0: byte, b1: byte, b2: byte): string {
    [Char(S0(b0)), Char(S1(b0, b1)), Char(S2(b1, b2)), Char(S3(b2))]
  }

  /** `EncodeToString`: every token is made of alphabet characters only and
      has ceil(4n/3) characters for n input bytes (Go's `EncodedLen` without
      padding). */
  function EncodeToString(b: seq<byte>): (s: string)
    ensures |s| == (4 * |b| + 2) / 3
    ensures IsToken(s)
    decreases |b|
  {
    if |b| == 0 then ""
    else if |b| == 1 then [Char(S0(b[0])), Char(S1(b[0], 0))]
    else if |b| == 2 then [Char(S0(b[0])), Char(S1(b[0], b[1])), Char(S2(b[1], 0))]
    else
      EncodeQuantum(b[0], b[1], b[2]) + EncodeToString(b[3..])
  }

  // ---------------------------------------------------------------------
  // Decoding

  /** The characters the decoder skips over are removed first. */
  function RemoveNewlines(s: string): (t: string)
    ensures |t| <= |s|
    ensures forall i :: 0 <= i < |t| ==> !IsNewline(t[i])
  {
    if s == [] then []
    else if IsNewline(s[0]) then RemoveNewlines(s[1..])
    else [s[0]] + RemoveNewlines(s[1..])
  }

  /** One full quantum: four characters become three bytes. */
  function DecodeQuantum(c0: char, c1: char, c2: char, c3: char): Result<seq<byte>, CorruptInputError> {
    if !InAlphabet(c0) || !InAlphabet(c1) || !InAlphabet(c2) || !InAlphabet(c3) then Err(CorruptInput)
    else
      var v0, v1, v2, v3 := DecodeMap(c0), DecodeMap(c1), DecodeMap(c2), DecodeMap(c3);
      Ok([B0(v0, v1), B1(v1, v2), B2(v2, v3)])
  }

  /** A final partial quantum of two or three characters. Like Go's
      non-strict decoder, the low bits that do not fill a byte are dropped
      whatever their value. */
  function DecodeTail(t: string): Result<seq<byte>, CorruptInputError>
    requires |t| == 2 || |t| == 3
  {
    if !InAlphabet(t[0]) || !InAlphabet(t[1]) || (|t| == 3 && !InAlphabet(t[2])) then Err(CorruptInput)
    else
      var v0, v1 := DecodeMap(t[0]), DecodeMap(t[1]);
      if |t| == 2 then Ok([B0(v0, v1)])
      else Ok([B0(v0, v1), B1(v1, DecodeMap(t[2]))])
  }

  /** Decodes a string that holds no line breaks, quantum by quantum. A
      single character left over at the end cannot hold a byte and is
      rejected. */
  function DecodeQuanta(t: string): (r: Result<seq<byte>, CorruptInputError>)
    ensures r.Ok? ==> |r.value| == |t| * 3 / 4
    decreases |t|
  {
    if |t| == 0 then Ok([])
    else if |t| == 1 then Err(CorruptInput)
    else if |t| < 4 then DecodeTail(t)
    else
      match DecodeQuantum(t[0], t[1], t[2], t[3])
      case Err(e) => Err(e)
      case Ok(q) =>
        match DecodeQuanta(t[4..])
        case Err(e) => Err(e)
        case Ok(rest) => Ok(q + rest)
  }

  /** `DecodeString`: three bytes for every four significant characters.
      Go's `DecodedLen` is only the buffer bound it computes from the raw
      length, line breaks included. */
  function DecodeString(s: string): (r: Result<seq<byte>, CorruptInputError>)
    ensures r.Ok? ==> |r.value| == |RemoveNewlines(s)| * 3 / 4
  {
    DecodeQuanta(RemoveNewlines(s))
  }

  // ---------------------------------------------------------------------
  // Properties

  /** A token holds no line breaks, so the decoder sees it unchanged. */
  lemma {:induction false} RemoveNewlinesOfToken(t: string)
    requires IsToken(t)
    ensures RemoveNewlines(t) == t
  {
    if t != [] {
      assert IsToken(t[1..]);
      RemoveNewlinesOfToken(t[1..]);
    }
  }

  lemma DecodeEncodeQuantum(b0: byte, b1: byte, b2: byte)
    ensures DecodeQuantum(EncodeQuantum(b0, b1, b2)[0], EncodeQuantum(b0, b1, b2)[1],
                          EncodeQuantum(b0, b1, b2)[2], EncodeQuantum(b0, b1, b2)[3]) == Ok([b0, b1, b2])
  {
    CharDecodeMap(S0(b0));
    CharDecodeMap(S1(b0, b1));
    CharDecodeMap(S2(b1, b2));
    CharDecodeMap(S3(b2));
    JoinSplit0(b0, b1);
    JoinSplit1(b0, b1, b2);
    JoinSplit2(b1, b2);
  }

  lemma DecodeEncodeTail1(b: seq<byte>)
    requires |b| == 1
    ensures DecodeQuanta(EncodeToString(b)) == Ok(b)
  {
    CharDecodeMap(S0(b[0]));
    CharDecodeMap(S1(b[0], 0));
    JoinSplit0(b[0], 0);
    assert b == [b[0]];
  }

  lemma DecodeEncodeTail2(b: seq<byte>)
    requires |b| == 2
    ensures DecodeQuanta(EncodeToString(b)) == Ok(b)
  {
    CharDecodeMap(S0(b[0]));
    CharDecodeMap(S1(b[0], b[1]));
    CharDecodeMap(S2(b[1], 0));
    JoinSplit0(b[0], b[1]);
    JoinSplit1(b[0], b[1], 0);
    assert b == [b[0], b[1]];
  }

  /** A full quantum in front of a decodable rest decodes to the quantum's
      bytes in front of the rest's. */
  lemma DecodeQuantaCons(q: string, rest: string, x: seq<byte>, y: seq<byte>)
    requires |q| == 4 && DecodeQuantum(q[0], q[1], q[2], q[3]) == Ok(x)
    requires DecodeQuanta(rest) == Ok(y)
    ensures DecodeQuanta(q + rest) == Ok(x + y)
  {
    var t := q + rest;
    assert t[0] == q[0] && t[1] == q[1] && t[2] == q[2] && t[3] == q[3];
    assert t[4..] == rest;
  }

  lemma DecodeEncodeShort(b: seq<byte>)
    requires |b| < 3
    ensures DecodeQuanta(EncodeToString(b)) == Ok(b)
  {
    if |b| == 1 {
      DecodeEncodeTail1(b);
    } else if |b| == 2 {
      DecodeEncodeTail2(b);
    }
  }

  lemma EncodeToStringCons(b: seq<byte>)
    requires |b| >= 3
    ensures EncodeToString(b) == EncodeQuantum(b[0], b[1], b[2]) + EncodeToString(b[3..])
  {
  }

  lemma SplitFirstThree(b: seq<byte>)
    requires |b| >= 3
    ensures [b[0], b[1], b[2]] + b[3..] == b
  {
  }

  /** An encoded quantum in front of a decodable rest. */
  lemma DecodeEncodeQuantumThen(b0: byte, b1: byte, b2: byte, rest: string, y: seq<byte>)
    requires DecodeQuanta(rest) == Ok(y)
    ensures DecodeQuanta(EncodeQuantum(b0, b1, b2) + rest) == Ok([b0, b1, b2] + y)
  {
    DecodeEncodeQuantum(b0, b1, b2);
    DecodeQuantaCons(EncodeQuantum(b0, b1, b2), rest, [b0, b1, b2], y);
  }

  /** Decoding inverts encoding on every byte sequence. */
  lemma {:induction false} DecodeQuantaEncode(b: seq<byte>)
    ensures DecodeQuanta(EncodeToString(b)) == Ok(b)
    decreases |b|
  {
    if |b| < 3 {
      DecodeEncodeShort(b);
    } else {
      DecodeQuantaEncode(b[3..]);
      EncodeToStringCons(b);
      DecodeEncodeQuantumThen(b[0], b[1], b[2], EncodeToString(b[3..]), b[3..]);
      SplitFirstThree(b);
    }
  }

  /** The transport round trip: `DecodeString(EncodeToString(b)) == b`. */
  lemma DecodeEncode(b: seq<byte>)
    ensures DecodeString(EncodeToString(b)) == Ok(b)
  {
    RemoveNewlinesOfToken(EncodeToString(b));
    DecodeQuantaEncode(b);
  }

  /** Exactly the strings made of alphabet characters whose length is not
      1 modulo 4 decode. */
  lemma {:induction false} DecodeQuantaAccepts(t: string)
    ensures DecodeQuanta(t).Ok? <==> IsToken(t) && |t| % 4 != 1
    decreases |t|
  {
    if |t| < 4 {
      DecodeShortAccepts(t);
    } else {
      DecodeQuantaAccepts(t[4..]);
      DecodeQuantaStep(t);
      IsTokenSplit(t);
      ModFourStep(|t|);
    }
  }

  lemma ModFourStep(n: int)
    requires n >= 4
    ensures (n - 4) % 4 == n % 4
  {
  }

  lemma DecodeShortAccepts(t: string)
    requires |t| < 4
    ensures DecodeQuanta(t).Ok? <==> IsToken(t) && |t| % 4 != 1
  {
    if |t| == 2 || |t| == 3 {
      if IsToken(t) {
        assert InAlphabet(t[0]) && InAlphabet(t[1]);
      }
    }
  }

  /** A long input decodes exactly when its first quantum and its rest do. */
  lemma DecodeQuantaStep(t: string)
    requires |t| >= 4
    ensures DecodeQuanta(t).Ok? <==>
      InAlphabet(t[0]) && InAlphabet(t[1]) && InAlphabet(t[2]) && InAlphabet(t[3]) && DecodeQuanta(t[4..]).Ok?
  {
  }

  lemma IsTokenSplit(t: string)
    requires |t| >= 4
    ensures IsToken(t) <==>
      InAlphabet(t[0]) && InAlphabet(t[1]) && InAlphabet(t[2]) && InAlphabet(t[3]) && IsToken(t[4..])
  {
    if IsToken(t) {
      forall i | 0 <= i < |t[4..]|
        ensures InAlphabet(t[4..][i])
      {
        assert t[4..][i] == t[i + 4];
      }
    } else if InAlphabet(t[0]) && InAlphabet(t[1]) && InAlphabet(t[2]) && InAlphabet(t[3]) {
      var i :| 0 <= i < |t| && !InAlphabet(t[i]);
      assert t[4..][i - 4] == t[i];
    }
  }

  lemma {:induction false} IsTokenRemoveNewlines(s: string)
    ensures IsToken(RemoveNewlines(s)) <==> forall i :: 0 <= i < |s| ==> InAlphabet(s[i]) || IsNewline(s[i])
  {
    if s != [] {
      IsTokenRemoveNewlines(s[1..]);
      var t := RemoveNewlines(s[1..]);
      var tailOk := forall i :: 0 <= i < |s[1..]| ==> InAlphabet(s[1..][i]) || IsNewline(s[1..][i]);
      if tailOk && (InAlphabet(s[0]) || IsNewline(s[0])) {
        forall i | 0 <= i < |s| ensures InAlphabet(s[i]) || IsNewline(s[i]) {
          if i > 0 { assert s[i] == s[1..][i - 1]; }
        }
        if !IsNewline(s[0]) {
          assert IsToken([s[0]] + t);
        }
      } else if !tailOk {
        var i :| 0 <= i < |s[1..]| && !(InAlphabet(s[1..][i]) || IsNewline(s[1..][i]));
        assert !(InAlphabet(s[i + 1]) || IsNewline(s[i + 1]));
        var j :| 0 <= j < |t| && !InAlphabet(t[j]);
        if !IsNewline(s[0]) {
          assert ([s[0]] + t)[j + 1] == t[j];
        }
      } else {
        assert !(InAlphabet(s[0]) || IsNewline(s[0]));
        assert RemoveNewlines(s)[0] == s[0];
      }
    }
  }

  /** What `DecodeString` accepts: alphabet characters and line breaks only,
      with a significant length that is not 1 modulo 4. Everything else,
      including any `+`, `/` or `=`, is a `CorruptInputError`. */
  lemma DecodeStringAccepts(s: string)
    ensures DecodeString(s).Ok? <==>
      (forall i :: 0 <= i < |s| ==> InAlphabet(s[i]) || IsNewline(s[i])) && |RemoveNewlines(s)| % 4 != 1
  {
    DecodeQuantaAccepts(RemoveNewlines(s));
    IsTokenRemoveNewlines(s);
  }

  /** A string holding a character that is neither in the alphabet nor a line
      break is rejected; so is one whose significant length is 1 modulo 4. */
  lemma DecodeStringRejects(s: string)
    requires (exists i :: 0 <= i < |s| && !InAlphabet(s[i]) && !IsNewline(s[i])) || |RemoveNewlines(s)| % 4 == 1
    ensures DecodeString(s).Err?
  {
    DecodeStringAccepts(s);
    if exists i :: 0 <= i < |s| && !InAlphabet(s[i]) && !IsNewline(s[i]) {
      var i :| 0 <= i < |s| && !InAlphabet(s[i]) && !IsNewline(s[i]);
      assert !(InAlphabet(s[i]) || IsNewline(s[i]));
    }
  }

  /** The non-strict decoder is not injective: the unused low bits of a final
      partial quantum are ignored, and line breaks are skipped. */
  lemma DecodeNotInjective()
    ensures DecodeString("AA") == DecodeString("AB") == DecodeString("A\nA") == Ok([0])
  {
    DecodeZeroByte("AA");
    DecodeZeroByte("AB");
    SkipNewlineBetweenAs();
  }

  lemma SkipNewlineBetweenAs()
    ensures DecodeString("A\nA") == DecodeString("AA")
  {
    SkipNewline("A", '\n', "A");
    assert "A" + ['\n'] + "A" == "A\nA";
  }

  lemma DecodeZeroByte(t: string)
    requires t == "AA" || t == "AB"
    ensures DecodeString(t) == Ok([0])
  {
    DecodeTwoChars(t);
    assert DecodeMap(t[0]) == 0 && DecodeMap(t[1]) < 16;
    assert B0(DecodeMap(t[0]), DecodeMap(t[1])) == 0;
  }

  /** A line break between two parts is skipped. */
  lemma SkipNewline(a: string, nl: char, b: string)
    requires IsNewline(nl)
    ensures DecodeString(a + [nl] + b) == DecodeString(a + b)
  {
    RemoveNewlinesAppend(a + [nl], b);
    RemoveNewlinesAppend(a, [nl]);
    RemoveNewlinesAppend(a, b);
    assert RemoveNewlines([nl]) == [];
    assert RemoveNewlines(a) + [] == RemoveNewlines(a);
  }

  /** Two alphabet characters decode to one byte. */
  lemma DecodeTwoChars(t: string)
    requires |t| == 2 && IsToken(t)
    ensures DecodeString(t).Ok? && DecodeString(t).value == [B0(DecodeMap(t[0]), DecodeMap(t[1]))]
  {
    RemoveNewlinesOfToken(t);
    assert DecodeTail(t).value == [B0(DecodeMap(t[0]), DecodeMap(t[1]))];
  }

  lemma EncodeMagicQuantum()
    ensures EncodeQuantum(0x1F, 0x8B, 0x08) == "H4sI"
  {
    assert S0(0x1F) == 7 && S1(0x1F, 0x8B) == 56 && S2(0x8B, 0x08) == 44 && S3(0x08) == 8;
    assert Char(7) == 'H' && Char(56) == '4' && Char(44) == 's' && Char(8) == 'I';
  }

  /** "H4sI" and the first three bytes of a gzip member header, ID1 = 0x1F,
      ID2 = 0x8B and CM = 8 (deflate) of section 2.3.1 of RFC 1952, are each
      other's encoding and decoding. */
  lemma GzipMagic()
    ensures EncodeToString([0x1F, 0x8B, 0x08]) == "H4sI"
    ensures DecodeString("H4sI") == Ok([0x1F, 0x8B, 0x08])
  {
    var magic: seq<byte> := [0x1F, 0x8B, 0x08];
    EncodeToStringCons(magic);
    assert magic[3..] == [];
    EncodeMagicQuantum();
    assert "H4sI" + "" == "H4sI";
    DecodeEncode(magic);
  }

  lemma {:induction false} RemoveNewlinesAppend(a: string, b: string)
    ensures RemoveNewlines(a + b) == RemoveNewlines(a) + RemoveNewlines(b)
  {
    if a != [] {
      assert (a + b)[0] == a[0] && (a + b)[1..] == a[1..] + b;
      RemoveNewlinesAppend(a[1..], b);
      if !IsNewline(a[0]) {
        assert [a[0]] + (RemoveNewlines(a[1..]) + RemoveNewlines(b))
            == ([a[0]] + RemoveNewlines(a[1..])) + RemoveNewlines(b);
      }
    } else {
      assert a + b == b;
    }
  }

  /** Any decodable string that starts with "H4sI" (as the compressed
      fixture token does) decodes to bytes that start with the gzip magic
      number and the deflate method byte. */
  lemma GzipTokenPrefix(s: string)
    requires |s| >= 4 && s[..4] == "H4sI"
    requires DecodeString(s).Ok?
    ensures |DecodeString(s).value| >= 3 && DecodeString(s).value[..3] == [0x1F, 0x8B, 0x08]
  {
    RemoveNewlinesTokenPrefix(s, 4);
    var t := RemoveNewlines(s);
    DecodeQuantaPrefix(t);
    MagicQuantumOf(t);
  }

  /** The line breaks after a token prefix are removed behind it. */
  lemma RemoveNewlinesTokenPrefix(s: string, k: nat)
    requires k <= |s| && IsToken(s[..k])
    ensures |RemoveNewlines(s)| >= k && RemoveNewlines(s)[..k] == s[..k]
  {
    assert s == s[..k] + s[k..];
    RemoveNewlinesAppend(s[..k], s[k..]);
    RemoveNewlinesOfToken(s[..k]);
  }

  /** A decodable input of at least four characters begins with the bytes
      of its first quantum. */
  lemma DecodeQuantaPrefix(t: string)
    requires |t| >= 4 && DecodeQuanta(t).Ok?
    ensures DecodeQuantum(t[0], t[1], t[2], t[3]).Ok?
    ensures DecodeQuanta(t).value[..3] == DecodeQuantum(t[0], t[1], t[2], t[3]).value
  {
    var q := DecodeQuantum(t[0], t[1], t[2], t[3]).value;
    var rest := DecodeQuanta(t[4..]).value;
    assert DecodeQuanta(t).value == q + rest;
    assert (q + rest)[..3] == q;
  }

  lemma MagicQuantumOf(t: string)
    requires |t| >= 4 && t[..4] == "H4sI"
    ensures DecodeQuantum(t[0], t[1], t[2], t[3]) == Ok([0x1F, 0x8B, 0x08])
  {
    assert t[0] == t[..4][0] && t[1] == t[..4][1] && t[2] == t[..4][2] && t[3] == t[..4][3];
    DecodeMagicQuantum();
  }

  lemma DecodeMagicQuantum()
    ensures DecodeQuantum('H', '4', 's', 'I') == Ok([0x1F, 0x8B, 0x08])
  {
    EncodeMagicQuantum();
    DecodeEncodeQuantum(0x1F, 0x8B, 0x08);
  }
}

/**
 * Binary frames byte by byte and UUID text character by character: packages/shared/src/binary-framing.ts, with the text
 * form of section 4 of RFC 9562.
 */
module FrameLaws {
  import opened Options
  import opened Sequences
  import opened Unicode
  import opened BinaryFraming

  // ---------- UUID text ----------

  const HEX := "0123456789abcdef"

  /** 36 characters: hyphens at 8, 13, 18 and 23, lower-case hexadecimal digits everywhere else. */
  predicate IsUuidText(s: string) {
    && |s| == 36
    && forall k | 0 <= k < 36 ::
         if k == 8 || k == 13 || k == 18 || k == 23 then s[k] == '-' else '0' <= s[k] <= '9' || 'a' <= s[k] <= 'f'
  }

  /** Where the two digits of byte `j` stand. */
  function DigitPlace(j: nat): nat {
    2 * j + if j < 4 then 0 else if j < 6 then 1 else if j < 8 then 2 else if j < 10 then 3 else 4
  }

  lemma HyphenatedAt(hex: string)
    requires |hex| == 32
    ensures var s := Hyphenated(hex);
            && |s| == 36 && s[8] == '-' && s[13] == '-' && s[18] == '-' && s[23] == '-'
            && (forall k | 0 <= k < 8 :: s[k] == hex[k]) && (forall k | 9 <= k < 13 :: s[k] == hex[k - 1])
            && (forall k | 14 <= k < 18 :: s[k] == hex[k - 2]) && (forall k | 19 <= k < 23 :: s[k] == hex[k - 3])
            && (forall k | 24 <= k < 36 :: s[k] == hex[k - 4])
  {
  }

  /** The digit in front of or behind which no hyphen has moved it out of its byte. */
  lemma HyphenatedDigits(hex: string, j: nat)
    requires |hex| == 32 && j < 16
    ensures |Hyphenated(hex)| == 36 && DigitPlace(j) + 1 < 36
    ensures Hyphenated(hex)[DigitPlace(j)] == hex[2 * j] && Hyphenated(hex)[DigitPlace(j) + 1] == hex[2 * j + 1]
  {
    HyphenatedAt(hex);
  }

  lemma HexDigitIs(v: int)
    requires 0 <= v < 16
    ensures HexDigit(v) == HEX[v] && ('0' <= HexDigit(v) <= '9' || 'a' <= HexDigit(v) <= 'f')
  {
  }

  lemma HexDigitsAt(bytes: seq<Byte>, j: nat)
    requires j < |bytes|
    ensures var b: int := bytes[j]; HexOf(bytes)[2 * j] == HEX[b / 16] && HexOf(bytes)[2 * j + 1] == HEX[b % 16]
  {
    var b: int := bytes[j];
    HexDigitIs(b / 16);
    HexDigitIs(b % 16);
    assert 2 * j / 2 == j && (2 * j + 1) / 2 == j && 2 * j % 2 == 0 && (2 * j + 1) % 2 == 1;
  }

  lemma HexIsLower(bytes: seq<Byte>)
    ensures forall k | 0 <= k < |HexOf(bytes)| :: '0' <= HexOf(bytes)[k] <= '9' || 'a' <= HexOf(bytes)[k] <= 'f'
  {
    forall k | 0 <= k < |HexOf(bytes)| ensures '0' <= HexOf(bytes)[k] <= '9' || 'a' <= HexOf(bytes)[k] <= 'f' {
      var b: int := bytes[k / 2];
      HexDigitIs(if k % 2 == 0 then b / 16 else b % 16);
    }
  }

  lemma HyphenatedForm(hex: string)
    requires |hex| == 32 && forall k | 0 <= k < 32 :: '0' <= hex[k] <= '9' || 'a' <= hex[k] <= 'f'
    ensures IsUuidText(Hyphenated(hex))
  {
    HyphenatedAt(hex);
  }

  /** The text of sixteen bytes: its form, and the two digits of each byte, high half first. */
  lemma UuidTextIs(bytes: seq<Byte>)
    ensures BytesToUuid(bytes).Ok? <==> |bytes| == 16
    ensures |bytes| == 16 ==> IsUuidText(BytesToUuid(bytes).value)
    ensures |bytes| == 16 ==>
              forall j | 0 <= j < 16 ::
                var text, b: int := BytesToUuid(bytes).value, bytes[j];
                text[DigitPlace(j)] == HEX[b / 16] && text[DigitPlace(j) + 1] == HEX[b % 16]
  {
    if |bytes| == 16 {
      HexIsLower(bytes);
      HyphenatedForm(HexOf(bytes));
      forall j | 0 <= j < 16
        ensures var text, b: int := BytesToUuid(bytes).value, bytes[j];
                text[DigitPlace(j)] == HEX[b / 16] && text[DigitPlace(j) + 1] == HEX[b % 16]
      {
        HyphenatedDigits(HexOf(bytes), j);
        HexDigitsAt(bytes, j);
      }
    }
  }

  // ---------- accepted texts ----------

  predicate IsHexadecimal(c: char) {
    '0' <= c <= '9' || 'a' <= c <= 'f' || 'A' <= c <= 'F'
  }

  lemma {:induction false} HyphensCounted(s: string)
    ensures |WithoutHyphens(s)| + multiset(s)['-'] == |s|
    ensures AllHex(WithoutHyphens(s)) <==> forall k | 0 <= k < |s| :: s[k] == '-' || IsHexadecimal(s[k])
  {
    if s != "" {
      var rest := WithoutHyphens(s[1..]);
      HyphensCounted(s[1..]);
      assert s == [s[0]] + s[1..];
      assert forall k | 1 <= k < |s| :: s[k] == s[1..][k - 1];
      HexCons(s[0], rest);
      assert (forall k | 0 <= k < |s| :: s[k] == '-' || IsHexadecimal(s[k]))
        <==> (s[0] == '-' || IsHexadecimal(s[0])) && forall k | 0 <= k < |s[1..]| :: s[1..][k] == '-' || IsHexadecimal(s[1..][k]);
    }
  }

  lemma HexCons(c: char, rest: string)
    ensures AllHex((if c == '-' then "" else [c]) + rest) <==> (c == '-' || IsHexadecimal(c)) && AllHex(rest)
  {
    if c == '-' {
      assert "" + rest == rest;
    } else {
      var all := [c] + rest;
      assert all[0] == c;
      assert forall k | 0 <= k < |rest| :: all[k + 1] == rest[k];
    }
  }

  /** A text is accepted exactly when it is made of 32 hexadecimal digits of either case and of hyphens anywhere. */
  lemma AcceptedUuidIff(uuid: string)
    ensures UuidToBytes(uuid).Ok? <==>
              |uuid| == 32 + multiset(uuid)['-'] && forall k | 0 <= k < |uuid| :: uuid[k] == '-' || IsHexadecimal(uuid[k])
  {
    HyphensCounted(uuid);
  }

  lemma GroupsOf(text: string)
    requires IsUuidText(text)
    ensures var hex := text[..8] + text[9..13] + text[14..18] + text[19..23] + text[24..];
            |hex| == 32 && text == Hyphenated(hex) && WithoutHyphens(text) == hex
            && forall k | 0 <= k < 32 :: '0' <= hex[k] <= '9' || 'a' <= hex[k] <= 'f'
  {
    var hex := text[..8] + text[9..13] + text[14..18] + text[19..23] + text[24..];
    HyphenatedAt(hex);
    assert text == Hyphenated(hex);
    forall k | 0 <= k < 32 ensures '0' <= hex[k] <= '9' || 'a' <= hex[k] <= 'f' {
      assert hex[k] == text[if k < 8 then k else if k < 12 then k + 1 else if k < 16 then k + 2 else if k < 20 then k + 3 else k + 4];
    }
    HyphensComeOff(hex);
  }

  /** A UUID text that is already in that form comes back unchanged. */
  lemma UuidTextUnchanged(text: string)
    requires IsUuidText(text)
    ensures UuidToBytes(text).Ok? && BytesToUuid(UuidToBytes(text).value) == Ok(text)
  {
    var hex := text[..8] + text[9..13] + text[14..18] + text[19..23] + text[24..];
    GroupsOf(text);
    UuidRoundTrip(text, []);
    ParsedHexPrints(hex);
    forall k | 0 <= k < 32 ensures LowerHex(hex[k]) == hex[k] {}
    assert seq(32, k requires 0 <= k < 32 => LowerHex(hex[k])) == hex;
  }

  /** Capitals count as the small letters: changing the case of digits changes no byte. */
  lemma CaseDoesNotMatter(a: string, b: string)
    requires UuidToBytes(a).Ok? && |a| == |b|
    requires forall k | 0 <= k < |a| ::
               a[k] == b[k] || ('a' <= a[k] <= 'f' && b[k] as int == a[k] as int - 32) || ('A' <= a[k] <= 'F' && b[k] as int == a[k] as int + 32)
    ensures UuidToBytes(b) == UuidToBytes(a)
  {
    SameDigits(a, b);
    var x, y := WithoutHyphens(a), WithoutHyphens(b);
    assert forall k | 0 <= k < |x| :: HexValue(x[k]) == HexValue(y[k]);
    assert ParseHex(x) == ParseHex(y);
  }

  predicate SameDigit(c: char, d: char) {
    c == d || ('a' <= c <= 'f' && d as int == c as int - 32) || ('A' <= c <= 'F' && d as int == c as int + 32)
  }

  lemma {:induction false} SameDigits(a: string, b: string)
    requires |a| == |b| && forall k | 0 <= k < |a| :: SameDigit(a[k], b[k])
    ensures |WithoutHyphens(a)| == |WithoutHyphens(b)|
    ensures forall k | 0 <= k < |WithoutHyphens(a)| :: SameDigit(WithoutHyphens(a)[k], WithoutHyphens(b)[k])
  {
    if a != "" {
      assert SameDigit(a[0], b[0]);
      assert forall k | 0 <= k < |a[1..]| :: SameDigit(a[1..][k], b[1..][k]) by {
        assert forall k | 0 <= k < |a[1..]| :: a[1..][k] == a[k + 1] && b[1..][k] == b[k + 1];
      }
      SameDigits(a[1..], b[1..]);
    }
  }

  // ---------- offsets ----------

  /** The number that eight bytes are, the first one the most significant. */
  function BigEndian(b: seq<Byte>): int
    requires |b| == 8
  {
    var b0: int, b1: int, b2: int, b3: int := b[0], b[1], b[2], b[3];
    var b4: int, b5: int, b6: int, b7: int := b[4], b[5], b[6], b[7];
    b0 * 0x100_0000_0000_0000 + b1 * 0x1_0000_0000_0000 + b2 * 0x100_0000_0000 + b3 * 0x1_0000_0000
    + b4 * 0x100_0000 + b5 * 0x1_0000 + b6 * 0x100 + b7
  }

  /** Offsets are big-endian numbers up to 2^53 - 1. */
  lemma OffsetIsBigEndian(bytes: seq<Byte>)
    requires |bytes| == 8
    ensures BytesToOffset(bytes) == if BigEndian(bytes) > 9_007_199_254_740_991 then Err(InvalidOffset) else Ok(BigEndian(bytes))
  {
  }

  // ---------- frames ----------

  /** An encoded upload frame: the byte 2, sixteen bytes of the id, eight of the offset, and the data. */
  lemma UploadFrameIs(uploadId: string, offset: Number, data: seq<Byte>)
    requires EncodeUploadChunkFrame(uploadId, offset, data).Ok?
    ensures var frame := EncodeUploadChunkFrame(uploadId, offset, data).value;
            && |frame| == 25 + |data| && frame[0] == 2 && frame[25..] == data
            && UuidToBytes(uploadId) == Ok(frame[1..17])
            && offset.Finite? && offset.value == BigEndian(frame[17..25]) as real && BigEndian(frame[17..25]) <= 9_007_199_254_740_991
  {
    ChunkRoundTrip(uploadId, offset, data);
    OffsetRoundTripIff(offset);
    var uuid, at := UuidToBytes(uploadId).value, OffsetToBytes(offset).value;
    var frame := EncodeUploadChunkFrame(uploadId, offset, data).value;
    assert frame == [BINARY_UPLOAD] + (uuid + at + data);
    assert |uuid| == 16 && |at| == 8;
    assert frame[1..17] == uuid && frame[17..25] == at && frame[25..] == data;
    OffsetIsBigEndian(at);
  }

  /**
   * Which bytes are an upload frame, and what it holds: the byte 2 and at least 24 more, with an offset up to
   * 2^53 - 1; the text of the id, the offset and the data stand at fixed places.
   */
  lemma DecodedUploadFrameIs(bytes: seq<Byte>)
    ensures DecodeUploadChunkFrame(bytes).Ok? <==>
              |bytes| >= 25 && bytes[0] == 2 && BigEndian(bytes[17..25]) <= 9_007_199_254_740_991
    ensures DecodeUploadChunkFrame(bytes).Ok? ==>
              var chunk := DecodeUploadChunkFrame(bytes).value;
              BytesToUuid(bytes[1..17]) == Ok(chunk.uploadId) && chunk.offset == BigEndian(bytes[17..25]) && chunk.data == bytes[25..]
    ensures bytes == [] || !(1 <= bytes[0] <= 3) ==> DecodeUploadChunkFrame(bytes) == Err(UnknownFormat)
    ensures bytes != [] && (bytes[0] == 1 || bytes[0] == 3) ==> DecodeUploadChunkFrame(bytes) == Err(UnknownFormat)
    ensures bytes != [] && bytes[0] == 2 && |bytes| < 25 ==> DecodeUploadChunkFrame(bytes) == Err(InvalidLength)
  {
    if |bytes| >= 25 && bytes[0] == 2 {
      var payload := bytes[1..];
      assert payload[..16] == bytes[1..17] && payload[16..24] == bytes[17..25] && payload[24..] == bytes[25..];
      OffsetIsBigEndian(bytes[17..25]);
      UuidTextIs(bytes[1..17]);
    }
  }

  /** A frame or a decrypted message is split behind its first byte, which is 1, 2 or 3. */
  lemma FormatByteIs(bytes: seq<Byte>)
    ensures DecodeBinaryFrame(bytes)
         == if bytes != [] && 1 <= bytes[0] <= 3 then Ok(Decoded(bytes[0], bytes[1..])) else Err(UnknownFormat)
    ensures ExtractFormatAndPayload(bytes)
         == if bytes != [] && 1 <= bytes[0] <= 3 then Ok(Decoded(bytes[0], bytes[1..])) else Err(InvalidFormat)
  {
  }

  /** An envelope: the byte 1, a nonce of 24 bytes and a ciphertext of 17 or more. */
  lemma EnvelopeIs(bytes: seq<Byte>)
    ensures ParseBinaryEnvelope(bytes)
         == if |bytes| < 42 then Err(InvalidLength)
            else if bytes[0] != 1 then Err(UnknownVersion)
            else Ok(Envelope(1, bytes[1..25], bytes[25..]))
  {
  }
}

/** Binary WebSocket frames, envelopes and upload chunks: packages/shared/src/binary-framing.ts. */
module BinaryFraming {
  import opened Options
  import opened Sequences
  import opened Unicode

  datatype FrameError =
    | UnknownFormat | UnknownVersion | InvalidFormat | InvalidLength | InvalidUuid | InvalidOffset

  const JSON_FORMAT: Byte := 1
  const BINARY_UPLOAD: Byte := 2
  const COMPRESSED_JSON: Byte := 3

  predicate IsFormat(b: Byte) {
    b == JSON_FORMAT || b == BINARY_UPLOAD || b == COMPRESSED_JSON
  }

  // ---------- UUID text, section 4 of RFC 9562 ----------

  predicate IsHex(c: char) {
    '0' <= c <= '9' || 'a' <= c <= 'f' || 'A' <= c <= 'F'
  }

  function HexValue(c: char): (v: int)
    requires IsHex(c)
    ensures 0 <= v < 16
  {
    if '0' <= c <= '9' then (c as int) - ('0' as int)
    else if 'a' <= c <= 'f' then (c as int) - ('a' as int) + 10
    else (c as int) - ('A' as int) + 10
  }

  function HexDigit(v: int): char
    requires 0 <= v < 16
  {
    if v < 10 then '0' + (v as char) else 'a' + ((v - 10) as char)
  }

  function LowerHex(c: char): char {
    if 'A' <= c <= 'F' then 'a' + ((c as int - 'A' as int) as char) else c
  }

  function WithoutHyphens(s: string): string {
    if s == "" then "" else (if s[0] == '-' then "" else [s[0]]) + WithoutHyphens(s[1..])
  }

  predicate AllHex(s: string) {
    forall k | 0 <= k < |s| :: IsHex(s[k])
  }

  function ParseHex(hex: string): seq<Byte>
    requires AllHex(hex) && |hex| % 2 == 0
  {
    seq(|hex| / 2, k requires 0 <= k < |hex| / 2 => HexValue(hex[2 * k]) * 16 + HexValue(hex[2 * k + 1]))
  }

  function HexOf(bytes: seq<Byte>): string {
    seq(2 * |bytes|, k requires 0 <= k < 2 * |bytes| =>
      var b: int := bytes[k / 2]; HexDigit(if k % 2 == 0 then b / 16 else b % 16))
  }

  /** 8-4-4-4-12. */
  function Hyphenated(hex: string): string
    requires |hex| == 32
  {
    hex[..8] + "-" + hex[8..12] + "-" + hex[12..16] + "-" + hex[16..20] + "-" + hex[20..]
  }

  function UuidToBytes(uuid: string): Result<seq<Byte>, FrameError> {
    var hex := WithoutHyphens(uuid);
    if |hex| != 32 || !AllHex(hex) then Err(InvalidUuid) else Ok(ParseHex(hex))
  }

  function BytesToUuid(bytes: seq<Byte>): Result<string, FrameError> {
    if |bytes| != 16 then Err(InvalidUuid) else Ok(Hyphenated(HexOf(bytes)))
  }

  /** The one spelling of a UUID that the decoder produces: lower case, hyphens after 8, 12, 16 and 20 digits. */
  function Canonical(uuid: string): string
    requires UuidToBytes(uuid).Ok?
  {
    var hex := WithoutHyphens(uuid);
    Hyphenated(seq(32, k requires 0 <= k < 32 => LowerHex(hex[k])))
  }

  lemma {:induction false} WithoutHyphensConcat(a: string, b: string)
    ensures WithoutHyphens(a + b) == WithoutHyphens(a) + WithoutHyphens(b)
  {
    if a == "" {
      assert a + b == b;
    } else {
      WithoutHyphensConcat(a[1..], b);
      assert (a + b)[1..] == a[1..] + b;
      Regroup(if a[0] == '-' then "" else [a[0]], WithoutHyphens(a[1..]), WithoutHyphens(b));
    }
  }

  lemma {:induction false} NoHyphensKept(s: string)
    requires forall k | 0 <= k < |s| :: s[k] != '-'
    ensures WithoutHyphens(s) == s
  {
    if s != "" {
      assert forall k | 0 <= k < |s[1..]| :: s[1..][k] == s[k + 1];
      NoHyphensKept(s[1..]);
    }
  }

  /** One more group of digits. */
  lemma GroupAppend(head: string, group: string)
    requires forall k | 0 <= k < |group| :: group[k] != '-'
    ensures WithoutHyphens(head + "-" + group) == WithoutHyphens(head) + group
  {
    assert WithoutHyphens("-") == "";
    WithoutHyphensConcat(head, "-");
    WithoutHyphensConcat(head + "-", group);
    NoHyphensKept(group);
    EmptyPlus(WithoutHyphens(head));
  }

  lemma HyphensComeOff(hex: string)
    requires |hex| == 32 && forall k | 0 <= k < 32 :: hex[k] != '-'
    ensures WithoutHyphens(Hyphenated(hex)) == hex
  {
    var a, b, c, d, e := hex[..8], hex[8..12], hex[12..16], hex[16..20], hex[20..];
    NoHyphensKept(a);
    GroupAppend(a, b);
    GroupAppend(a + "-" + b, c);
    GroupAppend(a + "-" + b + "-" + c, d);
    GroupAppend(a + "-" + b + "-" + c + "-" + d, e);
    assert a + b + c + d + e == hex;
  }

  lemma HexDigitValue(v: int)
    requires 0 <= v < 16
    ensures IsHex(HexDigit(v)) && HexValue(HexDigit(v)) == v && HexDigit(v) != '-'
  {
  }

  lemma HexValueDigit(c: char)
    requires IsHex(c)
    ensures HexDigit(HexValue(c)) == LowerHex(c)
  {
  }

  lemma HexOfParses(bytes: seq<Byte>)
    ensures AllHex(HexOf(bytes)) && ParseHex(HexOf(bytes)) == bytes
    ensures forall k | 0 <= k < |HexOf(bytes)| :: HexOf(bytes)[k] != '-'
  {
    var hex := HexOf(bytes);
    forall k | 0 <= k < |hex| ensures IsHex(hex[k]) && hex[k] != '-' {
      var b: int := bytes[k / 2];
      HexDigitValue(if k % 2 == 0 then b / 16 else b % 16);
    }
    forall k | 0 <= k < |bytes| ensures ParseHex(hex)[k] == bytes[k] {
      var b: int := bytes[k];
      HexDigitValue(b / 16);
      HexDigitValue(b % 16);
      assert hex[2 * k] == HexDigit(b / 16) && hex[2 * k + 1] == HexDigit(b % 16);
    }
  }

  lemma ParsedHexPrints(hex: string)
    requires AllHex(hex) && |hex| % 2 == 0
    ensures HexOf(ParseHex(hex)) == seq(|hex|, k requires 0 <= k < |hex| => LowerHex(hex[k]))
  {
    var bytes := ParseHex(hex);
    forall k | 0 <= k < |hex| ensures HexOf(bytes)[k] == LowerHex(hex[k]) {
      var i := k / 2;
      HexValueDigit(hex[2 * i]);
      HexValueDigit(hex[2 * i + 1]);
      var b: int := bytes[i];
      assert b / 16 == HexValue(hex[2 * i]) && b % 16 == HexValue(hex[2 * i + 1]);
      assert k == 2 * i || k == 2 * i + 1;
    }
  }

  /** Every accepted UUID comes back in canonical spelling, and every 16 bytes come back from their text. */
  lemma UuidRoundTrip(uuid: string, bytes: seq<Byte>)
    ensures UuidToBytes(uuid).Ok? ==> BytesToUuid(UuidToBytes(uuid).value) == Ok(Canonical(uuid))
    ensures |bytes| == 16 ==> UuidToBytes(BytesToUuid(bytes).value) == Ok(bytes)
  {
    if UuidToBytes(uuid).Ok? {
      ParsedHexPrints(WithoutHyphens(uuid));
    }
    if |bytes| == 16 {
      HexOfParses(bytes);
      HyphensComeOff(HexOf(bytes));
    }
  }

  /** `uuidToBytes` with its loop over pairs of digits. */
  method UuidBytes(uuid: string) returns (result: Result<seq<Byte>, FrameError>)
    ensures result == UuidToBytes(uuid)
  {
    var hex := WithoutHyphens(uuid);
    if |hex| != 32 {
      return Err(InvalidUuid);
    }
    if !AllHex(hex) {
      return Err(InvalidUuid);
    }
    var bytes := new Byte[16];
    for i := 0 to 16
      invariant bytes[..i] == ParseHex(hex)[..i]
    {
      bytes[i] := HexValue(hex[2 * i]) * 16 + HexValue(hex[2 * i + 1]);
    }
    assert bytes[..] == ParseHex(hex);
    return Ok(bytes[..]);
  }

  // ---------- offsets: big-endian 64 bits, limited to safe integers ----------

  /** A JavaScript number. */
  datatype Number = NaN | NegativeInfinity | PositiveInfinity | Finite(value: real)

  const MAX_SAFE_INTEGER := 0x1F_FFFF_FFFF_FFFF

  const TWO_32 := 0x1_0000_0000

  predicate IsSafeOffset(n: Number) {
    n.Finite? && n.value == n.value.Floor as real && 0 <= n.value.Floor <= MAX_SAFE_INTEGER
  }

  function Big32(v: int): seq<Byte>
    requires 0 <= v < TWO_32
  {
    [v / 0x100_0000, v / 0x1_0000 % 0x100, v / 0x100 % 0x100, v % 0x100]
  }

  function FromBig32(b: seq<Byte>): (v: int)
    requires |b| == 4
    ensures 0 <= v < TWO_32
  {
    var b0: int, b1: int, b2: int, b3: int := b[0], b[1], b[2], b[3];
    b0 * 0x100_0000 + b1 * 0x1_0000 + b2 * 0x100 + b3
  }

  function OffsetToBytes(n: Number): Result<seq<Byte>, FrameError> {
    match n
    case NegativeInfinity => Err(InvalidOffset)
    case NaN => Err(InvalidOffset)
    case PositiveInfinity => Err(InvalidOffset)
    case Finite(r) =>
      if r < 0.0 || r != r.Floor as real || r > MAX_SAFE_INTEGER as real then Err(InvalidOffset)
      else Ok(Big32(r.Floor / TWO_32) + Big32(r.Floor % TWO_32))
  }

  function BytesToOffset(bytes: seq<Byte>): Result<int, FrameError> {
    if |bytes| != 8 then Err(InvalidOffset)
    else
      var value := FromBig32(bytes[..4]) * TWO_32 + FromBig32(bytes[4..]);
      if value > MAX_SAFE_INTEGER then Err(InvalidOffset) else Ok(value)
  }

  lemma DivideTwice(v: int)
    requires 0 <= v
    ensures v / 0x1_0000 == v / 0x100 / 0x100
  {
  }

  lemma DivideThrice(v: int)
    requires 0 <= v
    ensures v / 0x100_0000 == v / 0x1_0000 / 0x100
  {
  }

  lemma Big32Reads(v: int)
    requires 0 <= v < TWO_32
    ensures FromBig32(Big32(v)) == v
  {
    DivideTwice(v);
    DivideThrice(v);
    Split8(v / 0x1_0000);
    Split8(v / 0x100);
    Split8(v);
  }

  lemma Split8(v: int)
    requires 0 <= v
    ensures v == v / 0x100 * 0x100 + v % 0x100
  {
  }

  lemma Big32Writes(b: seq<Byte>)
    requires |b| == 4
    ensures Big32(FromBig32(b)) == b
  {
    var b0: int, b1: int, b2: int, b3: int := b[0], b[1], b[2], b[3];
    var f := FromBig32(b);
    DivideTwice(f);
    DivideThrice(f);
    Digit8((b0 * 0x100 + b1) * 0x100 + b2, b3);
    Digit8(b0 * 0x100 + b1, b2);
    Digit8(b0, b1);
  }

  lemma Digit8(high: int, low: int)
    requires 0 <= low < 0x100
    ensures (high * 0x100 + low) / 0x100 == high && (high * 0x100 + low) % 0x100 == low
  {
  }

  lemma Digit32(high: int, low: int)
    requires 0 <= low < TWO_32
    ensures (high * TWO_32 + low) / TWO_32 == high && (high * TWO_32 + low) % TWO_32 == low
  {
  }

  function Whole(v: int): Number {
    Finite(v as real)
  }

  /** Encoding accepts exactly the integers 0 to 2^53 - 1 and decoding returns them unchanged. */
  lemma OffsetRoundTripIff(n: Number)
    ensures OffsetToBytes(n).Ok? <==> IsSafeOffset(n)
    ensures IsSafeOffset(n) ==> BytesToOffset(OffsetToBytes(n).value) == Ok(n.value.Floor)
  {
    if IsSafeOffset(n) {
      var v := n.value.Floor;
      Big32Reads(v / TWO_32);
      Big32Reads(v % TWO_32);
      var bytes := OffsetToBytes(n).value;
      assert bytes[..4] == Big32(v / TWO_32) && bytes[4..] == Big32(v % TWO_32);
    }
  }

  /** Eight bytes are rejected exactly when they exceed 2^53 - 1; accepted ones are encoded back. */
  lemma OffsetBytesRoundTrip(bytes: seq<Byte>)
    requires |bytes| == 8
    ensures BytesToOffset(bytes).Err? <==> FromBig32(bytes[..4]) >= 0x20_0000
    ensures BytesToOffset(bytes).Ok? ==> OffsetToBytes(Whole(BytesToOffset(bytes).value)) == Ok(bytes)
  {
    var high, low := FromBig32(bytes[..4]), FromBig32(bytes[4..]);
    var value := high * TWO_32 + low;
    Digit32(high, low);
    Big32Writes(bytes[..4]);
    Big32Writes(bytes[4..]);
    assert bytes == bytes[..4] + bytes[4..];
  }

  // ---------- frames ----------

  datatype Decoded = Decoded(format: Byte, payload: seq<Byte>)

  datatype UploadChunk = UploadChunk(uploadId: string, offset: int, data: seq<Byte>)

  function DecodeBinaryFrame(bytes: seq<Byte>): Result<Decoded, FrameError> {
    if bytes == [] || !IsFormat(bytes[0]) then Err(UnknownFormat) else Ok(Decoded(bytes[0], bytes[1..]))
  }

  function PrependFormatByte(format: Byte, payload: seq<Byte>): seq<Byte> {
    [format] + payload
  }

  function ExtractFormatAndPayload(decrypted: seq<Byte>): Result<Decoded, FrameError> {
    if decrypted == [] || !IsFormat(decrypted[0]) then Err(InvalidFormat)
    else Ok(Decoded(decrypted[0], decrypted[1..]))
  }

  function EncodeUploadChunkPayload(uploadId: string, offset: Number, data: seq<Byte>): Result<seq<Byte>, FrameError> {
    match (UuidToBytes(uploadId), OffsetToBytes(offset))
    case (Err(e), _) => Err(e)
    case (Ok(_), Err(e)) => Err(e)
    case (Ok(uuid), Ok(at)) => Ok(uuid + at + data)
  }

  function DecodeUploadChunkPayload(payload: seq<Byte>): Result<UploadChunk, FrameError> {
    if |payload| < 24 then Err(InvalidLength)
    else
      match (BytesToUuid(payload[..16]), BytesToOffset(payload[16..24]))
      case (Err(e), _) => Err(e)
      case (Ok(_), Err(e)) => Err(e)
      case (Ok(uploadId), Ok(offset)) => Ok(UploadChunk(uploadId, offset, payload[24..]))
  }

  function EncodeUploadChunkFrame(uploadId: string, offset: Number, data: seq<Byte>): Result<seq<Byte>, FrameError> {
    match EncodeUploadChunkPayload(uploadId, offset, data)
    case Err(e) => Err(e)
    case Ok(payload) => Ok(PrependFormatByte(BINARY_UPLOAD, payload))
  }

  function DecodeUploadChunkFrame(bytes: seq<Byte>): Result<UploadChunk, FrameError> {
    match DecodeBinaryFrame(bytes)
    case Err(e) => Err(e)
    case Ok(frame) => if frame.format != BINARY_UPLOAD then Err(UnknownFormat) else DecodeUploadChunkPayload(frame.payload)
  }

  /** Copies `source` into the buffer at `pos`, as `Uint8Array.set` does. */
  method Set(buffer: array<Byte>, source: seq<Byte>, pos: nat)
    requires pos + |source| <= buffer.Length
    modifies buffer
    ensures buffer[..] == old(buffer[..pos]) + source + old(buffer[pos + |source|..])
  {
    for i := 0 to |source|
      invariant buffer[..pos] == old(buffer[..pos])
      invariant buffer[pos..pos + i] == source[..i]
      invariant buffer[pos + |source|..] == old(buffer[pos + |source|..])
    {
      buffer[pos + i] := source[i];
    }
    assert buffer[..] == buffer[..pos] + buffer[pos..pos + |source|] + buffer[pos + |source|..];
  }

  /** `encodeUploadChunkFrame` writes the frame piece by piece with a moving position. */
  method WriteUploadChunkFrame(uploadId: string, offset: Number, data: seq<Byte>)
    returns (result: Result<seq<Byte>, FrameError>)
    ensures result == EncodeUploadChunkFrame(uploadId, offset, data)
  {
    var uuid := UuidBytes(uploadId);
    if uuid.Err? {
      return Err(uuid.error);
    }
    var at := OffsetToBytes(offset);
    if at.Err? {
      return Err(at.error);
    }
    var view := new Byte[1 + 16 + 8 + |data|];
    var pos := 0;
    view[pos] := BINARY_UPLOAD;
    pos := pos + 1;
    assert view[..pos] == [BINARY_UPLOAD];
    Set(view, uuid.value, pos);
    pos := pos + 16;
    assert view[..pos] == [BINARY_UPLOAD] + uuid.value;
    Set(view, at.value, pos);
    pos := pos + 8;
    assert view[..pos] == [BINARY_UPLOAD] + uuid.value + at.value;
    Set(view, data, pos);
    assert view[..] == [BINARY_UPLOAD] + uuid.value + at.value + data;
    Regroup([BINARY_UPLOAD], uuid.value, at.value);
    Regroup([BINARY_UPLOAD], uuid.value + at.value, data);
    return Ok(view[..]);
  }

  /** An encoded chunk decodes to the canonical id, the offset and the data; invalid input never encodes. */
  lemma ChunkRoundTrip(uploadId: string, offset: Number, data: seq<Byte>)
    ensures EncodeUploadChunkPayload(uploadId, offset, data).Ok? <==> UuidToBytes(uploadId).Ok? && IsSafeOffset(offset)
    ensures EncodeUploadChunkPayload(uploadId, offset, data).Ok? ==>
              DecodeUploadChunkPayload(EncodeUploadChunkPayload(uploadId, offset, data).value)
              == Ok(UploadChunk(Canonical(uploadId), offset.value.Floor, data))
  {
    OffsetRoundTripIff(offset);
    UuidRoundTrip(uploadId, []);
    if UuidToBytes(uploadId).Ok? && IsSafeOffset(offset) {
      var uuid, at := UuidToBytes(uploadId).value, OffsetToBytes(offset).value;
      var payload := uuid + at + data;
      assert payload[..16] == uuid && payload[16..24] == at && payload[24..] == data;
    }
  }

  /** Every accepted payload is the encoding of what it decodes to. */
  lemma AcceptedChunkReencodes(payload: seq<Byte>)
    requires DecodeUploadChunkPayload(payload).Ok?
    ensures var chunk := DecodeUploadChunkPayload(payload).value;
            EncodeUploadChunkPayload(chunk.uploadId, Whole(chunk.offset), chunk.data) == Ok(payload)
  {
    UuidRoundTrip("", payload[..16]);
    OffsetBytesRoundTrip(payload[16..24]);
    assert payload == payload[..16] + payload[16..24] + payload[24..];
  }

  /** The same for whole frames, which are the payload of the envelope behind its format byte. */
  lemma FrameRoundTrip(uploadId: string, offset: Number, data: seq<Byte>)
    requires EncodeUploadChunkFrame(uploadId, offset, data).Ok?
    ensures var frame := EncodeUploadChunkFrame(uploadId, offset, data).value;
            && DecodeUploadChunkFrame(frame) == Ok(UploadChunk(Canonical(uploadId), offset.value.Floor, data))
            && ExtractFormatAndPayload(frame)
               == Ok(Decoded(BINARY_UPLOAD, EncodeUploadChunkPayload(uploadId, offset, data).value))
  {
    ChunkRoundTrip(uploadId, offset, data);
    var payload := EncodeUploadChunkPayload(uploadId, offset, data).value;
    assert PrependFormatByte(BINARY_UPLOAD, payload)[1..] == payload;
  }

  lemma AcceptedFrameReencodes(frame: seq<Byte>)
    requires DecodeUploadChunkFrame(frame).Ok?
    ensures var chunk := DecodeUploadChunkFrame(frame).value;
            EncodeUploadChunkFrame(chunk.uploadId, Whole(chunk.offset), chunk.data) == Ok(frame)
  {
    AcceptedChunkReencodes(frame[1..]);
    assert frame == [frame[0]] + frame[1..];
  }

  // ---------- encrypted envelopes ----------

  const ENVELOPE_V1: Byte := 1
  const NONCE_LENGTH := 24
  const MIN_ENVELOPE_LENGTH := 1 + 24 + 16 + 1

  datatype Envelope = Envelope(version: Byte, nonce: seq<Byte>, ciphertext: seq<Byte>)

  function CreateBinaryEnvelope(nonce: seq<Byte>, ciphertext: seq<Byte>): Result<seq<Byte>, FrameError> {
    if |nonce| != NONCE_LENGTH then Err(InvalidLength) else Ok([ENVELOPE_V1] + nonce + ciphertext)
  }

  function ParseBinaryEnvelope(bytes: seq<Byte>): Result<Envelope, FrameError> {
    if |bytes| < MIN_ENVELOPE_LENGTH then Err(InvalidLength)
    else if bytes[0] != ENVELOPE_V1 then Err(UnknownVersion)
    else Ok(Envelope(bytes[0], bytes[1..25], bytes[25..]))
  }

  /**
   * An envelope parses back to its parts exactly when its ciphertext has room for an authenticator
   * and a format byte, and whatever parses is created again from its parts.
   */
  lemma EnvelopeRoundTrip(nonce: seq<Byte>, ciphertext: seq<Byte>, bytes: seq<Byte>)
    ensures |nonce| == NONCE_LENGTH ==>
              (ParseBinaryEnvelope(CreateBinaryEnvelope(nonce, ciphertext).value) == Ok(Envelope(ENVELOPE_V1, nonce, ciphertext))
               <==> |ciphertext| >= 17)
    ensures ParseBinaryEnvelope(bytes).Ok? ==>
              var e := ParseBinaryEnvelope(bytes).value; CreateBinaryEnvelope(e.nonce, e.ciphertext) == Ok(bytes)
  {
    if |nonce| == NONCE_LENGTH {
      var made := CreateBinaryEnvelope(nonce, ciphertext).value;
      assert made[1..25] == nonce && made[25..] == ciphertext;
    }
    if ParseBinaryEnvelope(bytes).Ok? {
      assert bytes == [bytes[0]] + bytes[1..25] + bytes[25..];
    }
  }
}

/**
 * UTF-8 and UTF-16 as the standards define them: the byte table of section 3 of RFC 3629, and the replacement of
 * malformed input, in which one U+FFFD stands for the longest part that could begin a character (section 3.9 of
 * the Unicode Standard).
 */
module Utf8Laws {
  import opened Sequences
  import opened Unicode

  // ---------- the byte table ----------

  /** The six bits of a continuation byte. */
  function Low(b: Byte): int {
    var i: int := b; i - 0x80
  }

  /** The bits of a first byte above the given one. */
  function Above(b: Byte, lead: int): int {
    var i: int := b; i - lead
  }

  /** How the table writes a scalar value. */
  lemma Utf8OfIs(v: Scalar)
    ensures var b := Utf8Of(v);
            && (v <= 0x7F ==> b == [v])
            && (0x80 <= v <= 0x7FF ==>
                  |b| == 2 && 0xC2 <= b[0] <= 0xDF && 0x80 <= b[1] <= 0xBF && v == Above(b[0], 0xC0) * 64 + Low(b[1]))
            && (0x800 <= v <= 0xFFFF ==>
                  && |b| == 3 && 0xE0 <= b[0] <= 0xEF && 0x80 <= b[1] <= 0xBF && 0x80 <= b[2] <= 0xBF
                  && v == Above(b[0], 0xE0) * 4096 + Low(b[1]) * 64 + Low(b[2]))
            && (0x10000 <= v ==>
                  && |b| == 4 && 0xF0 <= b[0] <= 0xF4 && 0x80 <= b[1] <= 0xBF && 0x80 <= b[2] <= 0xBF && 0x80 <= b[3] <= 0xBF
                  && v == Above(b[0], 0xF0) * 262144 + Low(b[1]) * 4096 + Low(b[2]) * 64 + Low(b[3]))
  {
    if 0x800 <= v <= 0xFFFF { ThreeDigits(v); }
    if 0x10000 <= v { FourDigits(v); }
  }

  /** What may follow a first byte. */
  lemma SecondByte(v: Scalar)
    requires |Utf8Of(v)| >= 2
    ensures var b := Utf8Of(v);
            && (b[0] == 0xE0 ==> 0xA0 <= b[1]) && (b[0] == 0xED ==> b[1] <= 0x9F)
            && (b[0] == 0xF0 ==> 0x90 <= b[1]) && (b[0] == 0xF4 ==> b[1] <= 0x8F)
  {
    if 0x800 <= v <= 0xFFFF { ThreeDigits(v); }
    if 0x10000 <= v { FourDigits(v); }
  }

  // ---------- malformed input ----------

  /** The bytes begin the encoding of some character, or are all of it. */
  ghost predicate Begins(part: seq<Byte>) {
    exists v: Scalar :: part <= Utf8Of(v)
  }

  /** Which parts begin a character, byte by byte. */
  predicate MayBegin(part: seq<Byte>) {
    || part == []
    || (|part| == 1 && part[0] <= 0x7F)
    || (|part| <= 2 && 0xC2 <= part[0] <= 0xDF && (|part| > 1 ==> Continues(part, 1)))
    || (|part| <= 3 && 0xE0 <= part[0] <= 0xEF
        && (|part| > 1 ==> Within(part, 1, if part[0] == 0xE0 then 0xA0 else 0x80, if part[0] == 0xED then 0x9F else 0xBF))
        && (|part| > 2 ==> Continues(part, 2)))
    || (|part| <= 4 && 0xF0 <= part[0] <= 0xF4
        && (|part| > 1 ==> Within(part, 1, if part[0] == 0xF0 then 0x90 else 0x80, if part[0] == 0xF4 then 0x8F else 0xBF))
        && (|part| > 2 ==> Continues(part, 2)) && (|part| > 3 ==> Continues(part, 3)))
  }

  lemma BeginsMay(part: seq<Byte>, v: Scalar)
    requires part <= Utf8Of(v)
    ensures MayBegin(part)
  {
    var b := Utf8Of(v);
    Utf8OfIs(v);
    if |b| >= 2 { SecondByte(v); }
    assert forall k | 0 <= k < |part| :: part[k] == b[k];
  }

  lemma WitnessTwo(b0: Byte, b1: Byte)
    requires 0xC2 <= b0 <= 0xDF && 0x80 <= b1 <= 0xBF
    ensures Utf8Of((b0 - 0xC0) * 64 + (b1 - 0x80)) == [b0, b1]
  {
  }

  lemma WitnessThree(b0: Byte, b1: Byte, b2: Byte) returns (v: Scalar)
    requires 0xE0 <= b0 <= 0xEF && 0x80 <= b1 <= 0xBF && 0x80 <= b2 <= 0xBF
    requires (b0 == 0xE0 ==> 0xA0 <= b1) && (b0 == 0xED ==> b1 <= 0x9F)
    ensures Utf8Of(v) == [b0, b1, b2]
  {
    v := (b0 - 0xE0) * 4096 + (b1 - 0x80) * 64 + (b2 - 0x80);
    ThreeBack(b0 - 0xE0, b1 - 0x80, b2 - 0x80);
  }

  lemma ThreeBack(x: int, y: int, z: int)
    requires 0 <= y < 64 && 0 <= z < 64
    ensures var v := x * 4096 + y * 64 + z; v / 0x1000 == x && v / 0x40 % 0x40 == y && v % 0x40 == z
  {
    var v := x * 4096 + y * 64 + z;
    assert v / 0x40 == x * 64 + y;
  }

  lemma WitnessFour(b0: Byte, b1: Byte, b2: Byte, b3: Byte) returns (v: Scalar)
    requires 0xF0 <= b0 <= 0xF4 && 0x80 <= b1 <= 0xBF && 0x80 <= b2 <= 0xBF && 0x80 <= b3 <= 0xBF
    requires (b0 == 0xF0 ==> 0x90 <= b1) && (b0 == 0xF4 ==> b1 <= 0x8F)
    ensures Utf8Of(v) == [b0, b1, b2, b3]
  {
    v := (b0 - 0xF0) * 262144 + (b1 - 0x80) * 4096 + (b2 - 0x80) * 64 + (b3 - 0x80);
    FourBack(b0 - 0xF0, b1 - 0x80, b2 - 0x80, b3 - 0x80);
  }

  lemma FourBack(w: int, x: int, y: int, z: int)
    requires 0 <= x < 64 && 0 <= y < 64 && 0 <= z < 64
    ensures var v := w * 262144 + x * 4096 + y * 64 + z;
            v / 0x40000 == w && v / 0x1000 % 0x40 == x && v / 0x40 % 0x40 == y && v % 0x40 == z
  {
    var v := w * 262144 + x * 4096 + y * 64 + z;
    assert v / 0x40 == w * 4096 + x * 64 + y;
    assert v / 0x1000 == w * 64 + x;
  }

  function Or(part: seq<Byte>, k: nat, other: Byte): Byte {
    if k < |part| then part[k] else other
  }

  lemma MayBeginsShort(part: seq<Byte>)
    requires MayBegin(part) && (part == [] || part[0] <= 0xDF)
    ensures Begins(part)
  {
    if part == [] {
      assert part <= Utf8Of(0);
    } else if part[0] <= 0x7F {
      assert part <= Utf8Of(part[0]);
    } else {
      var b1 := Or(part, 1, 0x80);
      WitnessTwo(part[0], b1);
      assert part <= [part[0], b1];
    }
  }

  lemma MayBeginsThree(part: seq<Byte>)
    requires MayBegin(part) && part != [] && 0xE0 <= part[0] <= 0xEF
    ensures Begins(part)
  {
    var b1, b2 := Or(part, 1, if part[0] == 0xE0 then 0xA0 else 0x80), Or(part, 2, 0x80);
    var v := WitnessThree(part[0], b1, b2);
    assert part <= [part[0], b1, b2];
  }

  lemma MayBeginsFour(part: seq<Byte>)
    requires MayBegin(part) && part != [] && 0xF0 <= part[0]
    ensures Begins(part)
  {
    var b1, b2, b3 := Or(part, 1, if part[0] == 0xF0 then 0x90 else 0x80), Or(part, 2, 0x80), Or(part, 3, 0x80);
    var v := WitnessFour(part[0], b1, b2, b3);
    assert part <= [part[0], b1, b2, b3];
  }

  lemma BeginsIff(part: seq<Byte>)
    ensures Begins(part) <==> MayBegin(part)
  {
    if v: Scalar :| part <= Utf8Of(v) {
      BeginsMay(part, v);
    }
    if MayBegin(part) {
      if part == [] || part[0] <= 0xDF {
        MayBeginsShort(part);
      } else if part[0] <= 0xEF {
        MayBeginsThree(part);
      } else {
        MayBeginsFour(part);
      }
    }
  }

  /** The input starts with a whole character. */
  ghost predicate StartsWithCharacter(bytes: seq<Byte>) {
    exists v: Scalar :: Utf8Of(v) <= bytes
  }

  /** What is replaced: at least one byte, as many as begin a character, and not one more. */
  lemma ReplacedPart(bytes: seq<Byte>)
    requires bytes != [] && DecodeFirst(bytes).0 == REPLACEMENT && !StartsWithCharacter(bytes)
    ensures var n := DecodeFirst(bytes).1;
            (n == 1 || MayBegin(bytes[..n])) && (n == |bytes| || !MayBegin(bytes[..n + 1]))
  {
  }

  lemma WholeCharacter(bytes: seq<Byte>)
    requires bytes != [] && DecodeFirst(bytes).0 != REPLACEMENT
    ensures StartsWithCharacter(bytes)
  {
    var b: int := bytes[0];
    if b < 0x80 {
      assert Utf8Of(b) <= bytes;
    } else if b <= 0xDF {
      WitnessTwo(b, bytes[1]);
      assert [b, bytes[1]] <= bytes;
    } else if b <= 0xEF {
      var v := WitnessThree(b, bytes[1], bytes[2]);
      assert [b, bytes[1], bytes[2]] <= bytes;
    } else {
      var v := WitnessFour(b, bytes[1], bytes[2], bytes[3]);
      assert [b, bytes[1], bytes[2], bytes[3]] <= bytes;
    }
  }

  /**
   * Decoding any bytes, one character after the other: a character that is there is read; otherwise U+FFFD stands for
   * the longest part that begins one, or for a single byte.
   */
  lemma DecodedOneByOne(bytes: seq<Byte>) returns (n: nat)
    requires bytes != []
    ensures 1 <= n <= |bytes|
    ensures Utf8Decode(bytes)[1..] == Utf8Decode(bytes[n..])
    ensures forall v: Scalar | Utf8Of(v) <= bytes :: Utf8Decode(bytes)[0] == v && n == |Utf8Of(v)|
    ensures !StartsWithCharacter(bytes) ==>
              Utf8Decode(bytes)[0] == 0xFFFD && (n == 1 || Begins(bytes[..n])) && (n == |bytes| || !Begins(bytes[..n + 1]))
  {
    n := DecodeFirst(bytes).1;
    forall v: Scalar | Utf8Of(v) <= bytes ensures DecodeFirst(bytes) == (v, |Utf8Of(v)|) {
      DecodeFirstInverts(v, bytes[|Utf8Of(v)|..]);
      assert bytes == Utf8Of(v) + bytes[|Utf8Of(v)|..];
    }
    if !StartsWithCharacter(bytes) {
      if DecodeFirst(bytes).0 != REPLACEMENT { WholeCharacter(bytes); }
      ReplacedPart(bytes);
      BeginsIff(bytes[..n]);
      if n < |bytes| { BeginsIff(bytes[..n + 1]); }
    }
  }

  // ---------- UTF-16 ----------

  lemma AccompaniedRest(s: seq<CodeUnit>, k: nat)
    requires s != [] && UnitCount(s) <= k < |s|
    ensures Accompanied(s, k) <==> Accompanied(s[UnitCount(s)..], k - UnitCount(s))
  {
    var n := UnitCount(s);
    assert s[n..][k - n] == s[k];
    assert k + 1 < |s| ==> s[n..][k - n + 1] == s[k + 1];
    assert k > n ==> s[n..][k - n - 1] == s[k - 1];
  }

  /** Scalar values keep each code unit but a lone surrogate, for which they have U+FFFD. */
  lemma {:induction false} LoneSurrogatesReplaced(s: seq<CodeUnit>)
    ensures |ToUnits(ToScalars(s))| == |s|
    ensures forall k | 0 <= k < |s| :: ToUnits(ToScalars(s))[k] == if Accompanied(s, k) then s[k] else 0xFFFD
  {
    if s != [] {
      var n := UnitCount(s);
      var v, rest := ToScalars(s)[0], ToScalars(s[n..]);
      LoneSurrogatesReplaced(s[n..]);
      assert ToScalars(s) == [v] + rest && ToScalars(s)[1..] == rest;
      assert ToUnits(ToScalars(s)) == UnitsOf(v) + ToUnits(rest);
      forall k | 0 <= k < |s| ensures ToUnits(ToScalars(s))[k] == if Accompanied(s, k) then s[k] else 0xFFFD {
        if k >= n {
          AccompaniedRest(s, k);
        }
      }
    }
  }

  /** The scalar value of a surrogate pair, and of any other code unit. */
  lemma PairIs(high: CodeUnit, low: CodeUnit, rest: seq<CodeUnit>)
    requires 0xD800 <= high <= 0xDBFF && 0xDC00 <= low <= 0xDFFF
    ensures ToScalars([high, low] + rest) == [0x10000 + (high - 0xD800) * 1024 + (low - 0xDC00)] + ToScalars(rest)
  {
    assert ([high, low] + rest)[2..] == rest;
  }

  lemma UnitIs(unit: CodeUnit, rest: seq<CodeUnit>)
    requires !(0xD800 <= unit <= 0xDFFF)
    ensures ToScalars([unit] + rest) == [unit] + ToScalars(rest)
  {
    assert ([unit] + rest)[1..] == rest;
  }
}

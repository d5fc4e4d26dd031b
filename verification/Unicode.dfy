/**
 * The text conversions behind TextEncoder and TextDecoder: UTF-16 code units, Unicode scalar values
 * and UTF-8 (section 3 of RFC 3629), with U+FFFD for whatever is malformed.
 */
module Unicode {
  import opened Sequences

  type Byte = b: int | 0 <= b < 0x100

  /** A JavaScript string is any sequence of these. */
  type CodeUnit = u: int | 0 <= u < 0x10000

  type Scalar = v: int | 0 <= v < 0x110000 && !(0xD800 <= v < 0xE000)

  const REPLACEMENT: Scalar := 0xFFFD

  const BYTE_ORDER_MARK: Scalar := 0xFEFF

  predicate IsHigh(u: CodeUnit) {
    0xD800 <= u < 0xDC00
  }

  predicate IsLow(u: CodeUnit) {
    0xDC00 <= u < 0xE000
  }

  // ---------- UTF-16 ----------

  /** Whether the string starts with a surrogate pair. */
  predicate StartsPair(s: seq<CodeUnit>) {
    |s| > 1 && IsHigh(s[0]) && IsLow(s[1])
  }

  /** The scalar values of a string; a lone surrogate becomes U+FFFD. */
  function ToScalars(s: seq<CodeUnit>): seq<Scalar> {
    if s == [] then []
    else if StartsPair(s) then [0x10000 + (s[0] - 0xD800) * 0x400 + (s[1] - 0xDC00)] + ToScalars(s[2..])
    else if IsHigh(s[0]) || IsLow(s[0]) then [REPLACEMENT] + ToScalars(s[1..])
    else [s[0]] + ToScalars(s[1..])
  }

  function UnitsOf(v: Scalar): seq<CodeUnit> {
    if v < 0x10000 then [v] else [0xD800 + (v - 0x10000) / 0x400, 0xDC00 + (v - 0x10000) % 0x400]
  }

  function ToUnits(vs: seq<Scalar>): seq<CodeUnit> {
    if vs == [] then [] else UnitsOf(vs[0]) + ToUnits(vs[1..])
  }

  /** The unit at `k` is no lone surrogate. */
  predicate Accompanied(s: seq<CodeUnit>, k: nat)
    requires k < |s|
  {
    && (IsHigh(s[k]) ==> k + 1 < |s| && IsLow(s[k + 1]))
    && (IsLow(s[k]) ==> k > 0 && IsHigh(s[k - 1]))
  }

  /** Each high surrogate is followed by a low one, and each low one preceded by a high one. */
  predicate NoLoneSurrogate(s: seq<CodeUnit>) {
    forall k | 0 <= k < |s| :: Accompanied(s, k)
  }

  function UnitCount(s: seq<CodeUnit>): (n: nat)
    requires s != []
    ensures 1 <= n <= |s|
  {
    if StartsPair(s) then 2 else 1
  }

  lemma AccompaniedShift(s: seq<CodeUnit>, k: nat)
    requires s != [] && (IsHigh(s[0]) ==> StartsPair(s)) && k < |s| - UnitCount(s)
    ensures Accompanied(s[UnitCount(s)..], k) <==> Accompanied(s, k + UnitCount(s))
  {
    var n := UnitCount(s);
    var rest := s[n..];
    assert rest[k] == s[k + n];
    assert k + 1 < |rest| ==> rest[k + 1] == s[k + n + 1];
    assert k > 0 ==> rest[k - 1] == s[k + n - 1];
  }

  lemma NoLoneRest(s: seq<CodeUnit>)
    requires s != []
    ensures NoLoneSurrogate(s) <==> (StartsPair(s) || !(IsHigh(s[0]) || IsLow(s[0]))) && NoLoneSurrogate(s[UnitCount(s)..])
  {
    var n := UnitCount(s);
    if StartsPair(s) || !(IsHigh(s[0]) || IsLow(s[0])) {
      forall k: nat | k < |s| - n ensures Accompanied(s[n..], k) <==> Accompanied(s, k + n) {
        AccompaniedShift(s, k);
      }
      if NoLoneSurrogate(s[n..]) {
        forall k | 0 <= k < |s| ensures Accompanied(s, k) {
          if k >= n { assert Accompanied(s[n..], k - n); }
        }
      }
    } else {
      assert !Accompanied(s, 0);
    }
  }

  /** Converting to scalar values and back keeps the length, and changes nothing exactly when no surrogate is lone. */
  lemma {:induction false} ScalarsRoundTripIff(s: seq<CodeUnit>)
    ensures |ToUnits(ToScalars(s))| == |s|
    ensures ToUnits(ToScalars(s)) == s <==> NoLoneSurrogate(s)
  {
    if s != [] {
      var n := UnitCount(s);
      var v, rest := ToScalars(s)[0], ToScalars(s[n..]);
      ScalarsRoundTripIff(s[n..]);
      NoLoneRest(s);
      assert ToScalars(s) == [v] + rest && ToScalars(s)[1..] == rest;
      assert ToUnits(ToScalars(s)) == UnitsOf(v) + ToUnits(rest);
      assert s == s[..n] + s[n..];
      if StartsPair(s) {
        assert UnitsOf(v) == s[..2];
      } else {
        assert |UnitsOf(v)| == 1;
        assert UnitsOf(v) == s[..1] <==> !(IsHigh(s[0]) || IsLow(s[0]));
      }
    }
  }

  // ---------- UTF-8 ----------

  function Utf8Of(v: Scalar): seq<Byte> {
    if v < 0x80 then [v]
    else if v < 0x800 then [0xC0 + v / 0x40, 0x80 + v % 0x40]
    else if v < 0x10000 then [0xE0 + v / 0x1000, 0x80 + v / 0x40 % 0x40, 0x80 + v % 0x40]
    else [0xF0 + v / 0x40000, 0x80 + v / 0x1000 % 0x40, 0x80 + v / 0x40 % 0x40, 0x80 + v % 0x40]
  }

  function Utf8Encode(vs: seq<Scalar>): seq<Byte> {
    if vs == [] then [] else Utf8Of(vs[0]) + Utf8Encode(vs[1..])
  }

  predicate Within(bytes: seq<Byte>, k: nat, low: int, high: int) {
    k < |bytes| && low <= bytes[k] <= high
  }

  predicate Continues(bytes: seq<Byte>, k: nat) {
    Within(bytes, k, 0x80, 0xBF)
  }

  /** The six payload bits of a continuation byte. */
  function Tail(bytes: seq<Byte>, k: nat): (t: int)
    requires Continues(bytes, k)
    ensures 0 <= t < 0x40
  {
    var b: int := bytes[k];
    b - 0x80
  }

  /** The first scalar value of a byte sequence and how many bytes it takes up, malformed input included. */
  function DecodeFirst(bytes: seq<Byte>): (r: (Scalar, nat))
    requires bytes != []
    ensures 1 <= r.1 <= |bytes|
  {
    var b: int := bytes[0];
    if b < 0x80 then (b, 1)
    else if 0xC2 <= b <= 0xDF then
      if Continues(bytes, 1) then ((b - 0xC0) * 0x40 + Tail(bytes, 1), 2) else (REPLACEMENT, 1)
    else if 0xE0 <= b <= 0xEF then
      if !Within(bytes, 1, if b == 0xE0 then 0xA0 else 0x80, if b == 0xED then 0x9F else 0xBF) then (REPLACEMENT, 1)
      else if !Continues(bytes, 2) then (REPLACEMENT, 2)
      else ((b - 0xE0) * 0x1000 + Tail(bytes, 1) * 0x40 + Tail(bytes, 2), 3)
    else if 0xF0 <= b <= 0xF4 then
      if !Within(bytes, 1, if b == 0xF0 then 0x90 else 0x80, if b == 0xF4 then 0x8F else 0xBF) then (REPLACEMENT, 1)
      else if !Continues(bytes, 2) then (REPLACEMENT, 2)
      else if !Continues(bytes, 3) then (REPLACEMENT, 3)
      else ((b - 0xF0) * 0x40000 + Tail(bytes, 1) * 0x1000 + Tail(bytes, 2) * 0x40 + Tail(bytes, 3), 4)
    else (REPLACEMENT, 1)
  }

  function Utf8Decode(bytes: seq<Byte>): seq<Scalar>
    decreases |bytes|
  {
    if bytes == [] then []
    else
      var first := DecodeFirst(bytes);
      [first.0] + Utf8Decode(bytes[first.1..])
  }

  lemma TwoBytes(v: Scalar, rest: seq<Byte>)
    requires 0x80 <= v < 0x800
    ensures DecodeFirst(Utf8Of(v) + rest) == (v, 2)
  {
    var bytes := Utf8Of(v) + rest;
    assert bytes[0] == 0xC0 + v / 0x40 && bytes[1] == 0x80 + v % 0x40;
  }

  lemma ThreeDigits(v: int)
    requires 0x800 <= v < 0x10000
    ensures v / 0x1000 * 0x1000 + v / 0x40 % 0x40 * 0x40 + v % 0x40 == v
    ensures v / 0x1000 == 0 ==> v / 0x40 % 0x40 >= 0x20
    ensures v / 0x1000 == 0xD && !(0xD800 <= v < 0xE000) ==> v / 0x40 % 0x40 < 0x20
  {
    assert v / 0x1000 == v / 0x40 / 0x40;
  }

  lemma ThreeBytes(v: Scalar, rest: seq<Byte>)
    requires 0x800 <= v < 0x10000
    ensures DecodeFirst(Utf8Of(v) + rest) == (v, 3)
  {
    var bytes := Utf8Of(v) + rest;
    assert bytes[0] == 0xE0 + v / 0x1000 && bytes[1] == 0x80 + v / 0x40 % 0x40 && bytes[2] == 0x80 + v % 0x40;
    ThreeDigits(v);
  }

  lemma FourDigits(v: int)
    requires 0x10000 <= v < 0x110000
    ensures v / 0x40000 * 0x40000 + v / 0x1000 % 0x40 * 0x1000 + v / 0x40 % 0x40 * 0x40 + v % 0x40 == v
    ensures v / 0x40000 == 0 ==> v / 0x1000 % 0x40 >= 0x10
    ensures v / 0x40000 == 4 ==> v / 0x1000 % 0x40 < 0x10
  {
    assert v / 0x1000 == v / 0x40 / 0x40;
    assert v / 0x40000 == v / 0x1000 / 0x40;
  }

  lemma FourBytes(v: Scalar, rest: seq<Byte>)
    requires 0x10000 <= v
    ensures DecodeFirst(Utf8Of(v) + rest) == (v, 4)
  {
    var bytes := Utf8Of(v) + rest;
    assert bytes[0] == 0xF0 + v / 0x40000 && bytes[1] == 0x80 + v / 0x1000 % 0x40;
    assert bytes[2] == 0x80 + v / 0x40 % 0x40 && bytes[3] == 0x80 + v % 0x40;
    FourDigits(v);
  }

  /** A scalar value is read back from its own bytes, whatever follows them. */
  lemma DecodeFirstInverts(v: Scalar, rest: seq<Byte>)
    ensures DecodeFirst(Utf8Of(v) + rest) == (v, |Utf8Of(v)|)
  {
    if v < 0x80 {
      assert (Utf8Of(v) + rest)[0] == v;
    } else if v < 0x800 {
      TwoBytes(v, rest);
    } else if v < 0x10000 {
      ThreeBytes(v, rest);
    } else {
      FourBytes(v, rest);
    }
  }

  lemma {:induction false} Utf8Step(v: Scalar, rest: seq<Byte>)
    ensures Utf8Decode(Utf8Of(v) + rest) == [v] + Utf8Decode(rest)
  {
    DecodeFirstInverts(v, rest);
    assert (Utf8Of(v) + rest)[|Utf8Of(v)|..] == rest;
  }

  lemma {:induction false} Utf8RoundTrip(vs: seq<Scalar>)
    ensures Utf8Decode(Utf8Encode(vs)) == vs
  {
    if vs != [] {
      Utf8RoundTrip(vs[1..]);
      Utf8Step(vs[0], Utf8Encode(vs[1..]));
    }
  }

  // ---------- the two standard objects ----------

  /** `new TextEncoder().encode(s)`. */
  function TextEncode(s: seq<CodeUnit>): seq<Byte> {
    Utf8Encode(ToScalars(s))
  }

  /** `new TextDecoder().decode(bytes)`: a leading byte order mark is dropped. */
  function TextDecode(bytes: seq<Byte>): seq<CodeUnit> {
    var vs := Utf8Decode(bytes);
    ToUnits(if vs != [] && vs[0] == BYTE_ORDER_MARK then vs[1..] else vs)
  }

  /**
   * Exactly which strings survive encoding and decoding: those without lone surrogates that do not
   * start with a byte order mark.
   */
  lemma TextRoundTripIff(s: seq<CodeUnit>)
    ensures TextDecode(TextEncode(s)) == s <==> NoLoneSurrogate(s) && (s == [] || s[0] != BYTE_ORDER_MARK)
  {
    var vs := ToScalars(s);
    Utf8RoundTrip(vs);
    ScalarsRoundTripIff(s);
    if s != [] && vs[0] == BYTE_ORDER_MARK {
      assert ToUnits(vs) == UnitsOf(vs[0]) + ToUnits(vs[1..]);
      assert |TextDecode(TextEncode(s))| == |s| - 1;
    }
  }

  // ---------- cutting a byte stream ----------

  /** The bytes are the encoding of some text: they end between two characters. */
  ghost predicate Whole(bytes: seq<Byte>) {
    exists vs :: Utf8Encode(vs) == bytes
  }

  lemma EncodeCons(v: Scalar, vs: seq<Scalar>)
    ensures Utf8Encode([v] + vs) == Utf8Of(v) + Utf8Encode(vs)
  {
    assert ([v] + vs)[1..] == vs;
  }

  lemma {:induction false} EncodeConcat(vs: seq<Scalar>, ws: seq<Scalar>)
    ensures Utf8Encode(vs + ws) == Utf8Encode(vs) + Utf8Encode(ws)
  {
    if vs == [] {
      EmptyPlus(ws);
      EmptyPlus(Utf8Encode(ws));
    } else {
      EncodeConcat(vs[1..], ws);
      ConsConcat(vs, ws);
      EncodeCons(vs[0], vs[1..]);
      EncodeCons(vs[0], vs[1..] + ws);
      Regroup(Utf8Of(vs[0]), Utf8Encode(vs[1..]), Utf8Encode(ws));
    }
  }

  lemma {:induction false} DecodeAfterWhole(vs: seq<Scalar>, rest: seq<Byte>)
    ensures Utf8Decode(Utf8Encode(vs) + rest) == vs + Utf8Decode(rest)
  {
    if vs == [] {
      assert Utf8Encode(vs) + rest == rest;
    } else {
      DecodeAfterWhole(vs[1..], rest);
      Utf8Step(vs[0], Utf8Encode(vs[1..]) + rest);
      Regroup(Utf8Of(vs[0]), Utf8Encode(vs[1..]), rest);
      Regroup([vs[0]], vs[1..], Utf8Decode(rest));
      assert [vs[0]] + vs[1..] == vs;
    }
  }

  /** Continuation bytes on their own are each replaced. */
  lemma {:induction false} StrayContinuations(y: seq<Byte>, rest: seq<Byte>)
    requires forall k | 0 <= k < |y| :: Continues(y, k)
    ensures |Utf8Decode(y + rest)| == |y| + |Utf8Decode(rest)|
  {
    if y == [] {
      assert y + rest == rest;
    } else {
      forall k | 0 <= k < |y[1..]| ensures Continues(y[1..], k) {
        assert Continues(y, k + 1);
      }
      StrayContinuations(y[1..], rest);
      assert Continues(y, 0) && (y + rest)[0] == y[0];
      assert (y + rest)[1..] == y[1..] + rest;
    }
  }

  /** A character that is cut in two is read as at least two. */
  lemma CutCharacter(v: Scalar, n: nat, rest: seq<Byte>)
    requires 0 < n < |Utf8Of(v)|
    ensures |Utf8Decode(Utf8Of(v)[..n])| + |Utf8Decode(Utf8Of(v)[n..] + rest)| > 1 + |Utf8Decode(rest)|
  {
    var y := Utf8Of(v)[n..];
    forall k | 0 <= k < |y| ensures Continues(y, k) {
      assert y[k] == Utf8Of(v)[n + k];
    }
    StrayContinuations(y, rest);
  }

  /** Where a cut falls in the encoding of a text: after `before`, `n` bytes into the next character. */
  predicate CutAt(a: seq<Byte>, b: seq<Byte>, before: seq<Scalar>, v: Scalar, after: seq<Scalar>, n: nat) {
    && n < |Utf8Of(v)|
    && a == Utf8Encode(before) + Utf8Of(v)[..n] && b == Utf8Of(v)[n..] + Utf8Encode(after)
  }

  lemma AlignSplits<T>(a: seq<T>, b: seq<T>, first: seq<T>, rest: seq<T>)
    requires a + b == first + rest
    ensures |a| < |first| ==> a == first[..|a|] && b == first[|a|..] + rest
    ensures |a| >= |first| ==> a == first + a[|first|..] && a[|first|..] + b == rest
  {
    assert a == (first + rest)[..|a|] && b == (first + rest)[|a|..];
  }

  lemma {:induction false} FindCut(a: seq<Byte>, b: seq<Byte>, vs: seq<Scalar>)
    returns (before: seq<Scalar>, v: Scalar, after: seq<Scalar>, n: nat)
    requires a + b == Utf8Encode(vs) && b != []
    ensures CutAt(a, b, before, v, after, n) && vs == before + ([v] + after)
    decreases |vs|
  {
    var first := Utf8Of(vs[0]);
    assert vs == [vs[0]] + vs[1..];
    AlignSplits(a, b, first, Utf8Encode(vs[1..]));
    if |a| < |first| {
      before, v, after, n := [], vs[0], vs[1..], |a|;
    } else {
      var rest: seq<Scalar>;
      rest, v, after, n := FindCut(a[|first|..], b, vs[1..]);
      before := [vs[0]] + rest;
      EncodeCons(vs[0], rest);
      Regroup(first, Utf8Encode(rest), Utf8Of(v)[..n]);
      Regroup([vs[0]], rest, [v] + after);
    }
  }

  /** Decoding the parts of a text cut inside a character yields more than decoding the whole. */
  lemma CutInside(a: seq<Byte>, b: seq<Byte>, before: seq<Scalar>, v: Scalar, after: seq<Scalar>, n: nat)
    requires CutAt(a, b, before, v, after, n) && n > 0
    ensures |Utf8Decode(a)| + |Utf8Decode(b)| > |before + ([v] + after)|
  {
    DecodeAfterWhole(before, Utf8Of(v)[..n]);
    Utf8RoundTrip(after);
    CutCharacter(v, n, Utf8Encode(after));
  }

  /**
   * Exactly where valid UTF-8 may be cut: decoding the two parts separately gives the same text as
   * decoding the whole if and only if the first part is whole, that is, ends between characters.
   */
  lemma CutKeepsTextIff(a: seq<Byte>, b: seq<Byte>, vs: seq<Scalar>)
    requires a + b == Utf8Encode(vs)
    ensures Utf8Decode(a) + Utf8Decode(b) == Utf8Decode(a + b) <==> Whole(a)
  {
    if Whole(a) {
      var ws :| Utf8Encode(ws) == a;
      Utf8RoundTrip(ws);
      DecodeAfterWhole(ws, b);
    } else {
      assert b != [] by { assert b == [] ==> a == Utf8Encode(vs); }
      var before, v, after, n := FindCut(a, b, vs);
      assert n > 0 by { assert n == 0 ==> a == Utf8Encode(before); }
      CutInside(a, b, before, v, after, n);
      Utf8RoundTrip(vs);
    }
  }
}

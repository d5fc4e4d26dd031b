/**
 * base64 in numbers: three bytes and four symbols are the same number (section 4 of RFC 4648), whatever is missing
 * at the end counts as zero; and exactly which texts `atob` accepts.
 */
module Base64Laws {
  import opened Options
  import opened Sequences
  import opened Unicode
  import opened Base64

  const CAPITALS := "ABCDEFGHIJKLMNOPQRSTUVWXYZ"

  const SMALL_LETTERS := "abcdefghijklmnopqrstuvwxyz"

  const TEN := "0123456789"

  /** Table 1 of RFC 4648. */
  const STANDARD := CAPITALS + SMALL_LETTERS + TEN + "+/"

  /** Table 2 of RFC 4648. */
  const URL_SAFE := CAPITALS + SMALL_LETTERS + TEN + "-_"

  function ByteAt(bytes: seq<Byte>, i: nat): int {
    if i < |bytes| then bytes[i] else 0
  }

  /** The number that the `q`-th three bytes are. */
  function ThreeBytes(bytes: seq<Byte>, q: nat): int {
    ByteAt(bytes, 3 * q) * 0x10000 + ByteAt(bytes, 3 * q + 1) * 0x100 + ByteAt(bytes, 3 * q + 2)
  }

  /** The digit to base 64 of a number, the first of four being the most significant. */
  function SixBits(number: int, r: nat): int
    requires r < 4
  {
    (if r == 0 then number / 0x40000 else if r == 1 then number / 0x1000 else if r == 2 then number / 0x40 else number) % 0x40
  }

  lemma CapitalIs(i: nat)
    requires i < 26
    ensures CAPITALS[i] == 'A' + i as char
  {
  }

  lemma SmallLetterIs(i: nat)
    requires i < 26
    ensures SMALL_LETTERS[i] == 'a' + i as char
  {
  }

  lemma TenIs(i: nat)
    requires i < 10
    ensures TEN[i] == '0' + i as char
  {
  }

  lemma SymbolIs(d: Digit)
    ensures Symbol(d) == STANDARD[d]
    ensures (if Symbol(d) == '+' then '-' else if Symbol(d) == '/' then '_' else Symbol(d)) == URL_SAFE[d]
  {
    var i: int := d;
    if i < 26 {
      CapitalIs(i);
    } else if i < 52 {
      SmallLetterIs(i - 26);
    } else if i < 62 {
      TenIs(i - 52);
    } else {
      assert STANDARD[62] == "+/"[0] && STANDARD[63] == "+/"[1] && URL_SAFE[62] == "-_"[0] && URL_SAFE[63] == "-_"[1];
    }
  }

  lemma Four(x: int, y: int, z: int, w: int)
    requires 0 <= x < 64 && 0 <= y < 64 && 0 <= z < 64 && 0 <= w < 64
    ensures var n := x * 0x40000 + y * 0x1000 + z * 0x40 + w;
            SixBits(n, 0) == x && SixBits(n, 1) == y && SixBits(n, 2) == z && SixBits(n, 3) == w
  {
    var n := x * 0x40000 + y * 0x1000 + z * 0x40 + w;
    assert n / 0x40000 == x;
    assert n / 0x1000 == x * 64 + y;
    assert n / 0x40 == (x * 64 + y) * 64 + z;
  }

  lemma GroupOfThree(a: int, b: int, c: int)
    requires 0 <= a < 0x100 && 0 <= b < 0x100 && 0 <= c < 0x100
    ensures var n := a * 0x10000 + b * 0x100 + c;
            && SixBits(n, 0) == a / 4 && SixBits(n, 1) == a % 4 * 16 + b / 16
            && SixBits(n, 2) == b % 16 * 4 + c / 64 && SixBits(n, 3) == c % 64
  {
    Four(a / 4, a % 4 * 16 + b / 16, b % 16 * 4 + c / 64, c % 64);
    Regrouped(a, b, c);
  }

  lemma Regrouped(a: int, b: int, c: int)
    ensures a * 0x10000 + b * 0x100 + c
         == a / 4 * 0x40000 + (a % 4 * 16 + b / 16) * 0x1000 + (b % 16 * 4 + c / 64) * 0x40 + c % 64
  {
    assert a == a / 4 * 4 + a % 4;
    assert b == b / 16 * 16 + b % 16;
    assert c == c / 64 * 64 + c % 64;
  }

  lemma LaterGroups(bytes: seq<Byte>, q: nat)
    requires |bytes| >= 3
    ensures ThreeBytes(bytes, q + 1) == ThreeBytes(bytes[3..], q)
  {
    assert forall i: nat | i < |bytes[3..]| :: bytes[3..][i] == bytes[i + 3];
    assert 3 * (q + 1) == 3 * q + 3;
  }

  lemma DigitsUnfold(bytes: seq<Byte>)
    requires |bytes| >= 3
    ensures |Digits(bytes)| >= 4 && Digits(bytes)[4..] == Digits(bytes[3..])
  {
  }

  lemma FirstDigits(bytes: seq<Byte>, k: nat)
    requires k < 4 && k < |Digits(bytes)|
    ensures Digits(bytes)[k] == SixBits(ThreeBytes(bytes, 0), k)
  {
    GroupOfThree(ByteAt(bytes, 0), ByteAt(bytes, 1), ByteAt(bytes, 2));
  }

  lemma {:induction false} DigitsAre(bytes: seq<Byte>, k: nat)
    requires k < |Digits(bytes)|
    ensures Digits(bytes)[k] == SixBits(ThreeBytes(bytes, k / 4), k % 4)
  {
    if k < 4 {
      FirstDigits(bytes, k);
    } else {
      DigitsUnfold(bytes);
      DigitsAre(bytes[3..], k - 4);
      assert k / 4 == (k - 4) / 4 + 1 && k % 4 == (k - 4) % 4;
      LaterGroups(bytes, (k - 4) / 4);
    }
  }

  lemma DigitTotal(n: nat)
    ensures DigitCount(n) == (4 * n + 2) / 3
  {
  }

  /** The URL form: one symbol for each six bits that have begun, missing bits being zero, and no padding. */
  lemma UrlFormIs(bytes: seq<Byte>)
    ensures |ToBase64Url(bytes)| == (4 * |bytes| + 2) / 3
    ensures forall k | 0 <= k < |ToBase64Url(bytes)| :: ToBase64Url(bytes)[k] == URL_SAFE[SixBits(ThreeBytes(bytes, k / 4), k % 4)]
  {
    UrlForm(bytes);
    DigitsRoundTrip(bytes);
    DigitTotal(|bytes|);
    forall k | 0 <= k < |ToBase64Url(bytes)| ensures ToBase64Url(bytes)[k] == URL_SAFE[SixBits(ThreeBytes(bytes, k / 4), k % 4)] {
      DigitsAre(bytes, k);
      SymbolIs(Digits(bytes)[k]);
    }
  }

  // ---------- what `atob` reads ----------

  /** The digits that the symbols of a text stand for in the table. */
  predicate Spells(text: string, digits: seq<Digit>) {
    |text| == |digits| && forall k | 0 <= k < |text| :: text[k] == STANDARD[digits[k]]
  }

  lemma SpelledDigits(text: string, digits: seq<Digit>)
    requires Spells(text, digits)
    ensures AllSymbols(text) && DigitsOf(text) == digits
  {
    forall k | 0 <= k < |text| ensures IsSymbol(text[k]) && DigitOf(text[k]) == digits[k] {
      SymbolIs(digits[k]);
      DigitOfSymbol(digits[k]);
    }
  }

  function DigitAt(digits: seq<Digit>, k: nat): int {
    if k < |digits| then digits[k] else 0
  }

  /** The number that the `q`-th four digits are. */
  function FourDigits(digits: seq<Digit>, q: nat): int {
    DigitAt(digits, 4 * q) * 0x40000 + DigitAt(digits, 4 * q + 1) * 0x1000 + DigitAt(digits, 4 * q + 2) * 0x40 + DigitAt(digits, 4 * q + 3)
  }

  function EightBits(number: int, r: nat): int
    requires r < 3
  {
    (if r == 0 then number / 0x10000 else if r == 1 then number / 0x100 else number) % 0x100
  }

  lemma Three(x: int, y: int, z: int)
    requires 0 <= x < 0x100 && 0 <= y < 0x100 && 0 <= z < 0x100
    ensures var n := x * 0x10000 + y * 0x100 + z; EightBits(n, 0) == x && EightBits(n, 1) == y && EightBits(n, 2) == z
  {
    var n := x * 0x10000 + y * 0x100 + z;
    assert n / 0x10000 == x;
    assert n / 0x100 == x * 0x100 + y;
  }

  lemma GroupOfFour(a: int, b: int, c: int, d: int)
    requires 0 <= a < 64 && 0 <= b < 64 && 0 <= c < 64 && 0 <= d < 64
    ensures var n := a * 0x40000 + b * 0x1000 + c * 0x40 + d;
            && EightBits(n, 0) == a * 4 + b / 16 && EightBits(n, 1) == b % 16 * 16 + c / 4 && EightBits(n, 2) == c % 4 * 64 + d
  {
    assert b == b / 16 * 16 + b % 16;
    assert c == c / 4 * 4 + c % 4;
    Three(a * 4 + b / 16, b % 16 * 16 + c / 4, c % 4 * 64 + d);
  }

  lemma LaterFours(digits: seq<Digit>, q: nat)
    requires |digits| >= 4
    ensures FourDigits(digits, q + 1) == FourDigits(digits[4..], q)
  {
    assert forall i: nat | i < |digits[4..]| :: digits[4..][i] == digits[i + 4];
    assert 4 * (q + 1) == 4 * q + 4;
  }

  lemma BytesUnfold(digits: seq<Digit>)
    requires |digits| % 4 != 1 && |digits| >= 4
    ensures |Bytes(digits)| == 3 + |Bytes(digits[4..])| && Bytes(digits)[3..] == Bytes(digits[4..])
  {
  }

  lemma FourMore(n: nat)
    requires n >= 4
    ensures 3 * n / 4 == 3 + 3 * (n - 4) / 4
  {
  }

  lemma {:induction false} BytesCounted(digits: seq<Digit>)
    requires |digits| % 4 != 1
    ensures |Bytes(digits)| == 3 * |digits| / 4
  {
    if |digits| >= 4 {
      BytesUnfold(digits);
      BytesCounted(digits[4..]);
      FourMore(|digits|);
    } else if |digits| > 0 {
      HeadShort(digits);
    }
  }

  lemma HeadShort(digits: seq<Digit>)
    requires |digits| == 2 || |digits| == 3
    ensures |Bytes(digits)| == |digits| - 1
    ensures Bytes(digits)[0] == DigitAt(digits, 0) * 4 + DigitAt(digits, 1) / 16
    ensures |digits| == 3 ==> Bytes(digits)[1] == DigitAt(digits, 1) % 16 * 16 + DigitAt(digits, 2) / 4
  {
  }

  lemma HeadLong(digits: seq<Digit>)
    requires |digits| % 4 != 1 && |digits| >= 4
    ensures |Bytes(digits)| >= 3
    ensures Bytes(digits)[0] == DigitAt(digits, 0) * 4 + DigitAt(digits, 1) / 16
    ensures Bytes(digits)[1] == DigitAt(digits, 1) % 16 * 16 + DigitAt(digits, 2) / 4
    ensures Bytes(digits)[2] == DigitAt(digits, 2) % 4 * 64 + DigitAt(digits, 3)
  {
  }

  lemma HeadBytes(digits: seq<Digit>)
    requires |digits| % 4 != 1
    ensures |Bytes(digits)| > 0 ==> Bytes(digits)[0] == DigitAt(digits, 0) * 4 + DigitAt(digits, 1) / 16
    ensures |Bytes(digits)| > 1 ==> Bytes(digits)[1] == DigitAt(digits, 1) % 16 * 16 + DigitAt(digits, 2) / 4
    ensures |Bytes(digits)| > 2 ==> Bytes(digits)[2] == DigitAt(digits, 2) % 4 * 64 + DigitAt(digits, 3)
  {
    if |digits| >= 4 {
      HeadLong(digits);
    } else if |digits| > 0 {
      HeadShort(digits);
    }
  }

  lemma FirstBytes(digits: seq<Digit>, i: nat)
    requires |digits| % 4 != 1 && i < 3 && i < |Bytes(digits)|
    ensures Bytes(digits)[i] == EightBits(FourDigits(digits, 0), i)
  {
    HeadBytes(digits);
    GroupOfFour(DigitAt(digits, 0), DigitAt(digits, 1), DigitAt(digits, 2), DigitAt(digits, 3));
    FirstFour(digits);
  }

  lemma FirstFour(digits: seq<Digit>)
    ensures FourDigits(digits, 0)
         == DigitAt(digits, 0) * 0x40000 + DigitAt(digits, 1) * 0x1000 + DigitAt(digits, 2) * 0x40 + DigitAt(digits, 3)
  {
  }

  lemma {:induction false} BytesAre(digits: seq<Digit>, i: nat)
    requires |digits| % 4 != 1 && i < |Bytes(digits)|
    ensures Bytes(digits)[i] == EightBits(FourDigits(digits, i / 3), i % 3)
  {
    if i < 3 {
      FirstBytes(digits, i);
    } else {
      BytesUnfold(digits);
      BytesAre(digits[4..], i - 3);
      assert i / 3 == (i - 3) / 3 + 1 && i % 3 == (i - 3) % 3;
      LaterFours(digits, (i - 3) / 3);
    }
  }

  lemma NoSpaceInSymbols(text: string, n: nat)
    requires AllSymbols(text)
    ensures WithoutSpace(text + Repeat('=', n)) == text + Repeat('=', n)
  {
    var all := text + Repeat('=', n);
    forall k | 0 <= k < |all| ensures !IsAsciiSpace(all[k]) {
      if k < |text| { assert IsSymbol(text[k]); }
    }
    NoSpaceKept(all);
  }

  /**
   * What `atob` makes of symbols: their number in bytes, the same whether the text is padded to a multiple of four
   * or not padded at all; one symbol alone in a group is rejected.
   */
  lemma AtobReads(text: string, digits: seq<Digit>)
    requires Spells(text, digits)
    ensures Atob(text).Some? <==> |text| % 4 != 1
    ensures Atob(text).Some? ==>
              && |Atob(text).value| == 3 * |text| / 4
              && forall i | 0 <= i < |Atob(text).value| :: Atob(text).value[i] == EightBits(FourDigits(digits, i / 3), i % 3)
    ensures |text| % 4 == 3 ==> Atob(text + "=") == Atob(text)
    ensures |text| % 4 == 2 ==> Atob(text + "==") == Atob(text)
  {
    SpelledDigits(text, digits);
    NoSpaceInSymbols(text, 0);
    assert text + Repeat('=', 0) == text;
    if text != "" { LastIsNoPadding(text); }
    assert Unpadded(text) == text;
    if |text| % 4 != 1 {
      BytesCounted(digits);
      forall i | 0 <= i < |Atob(text).value| ensures Atob(text).value[i] == EightBits(FourDigits(digits, i / 3), i % 3) {
        BytesAre(digits, i);
      }
    }
    NoSpaceInSymbols(text, 1);
    NoSpaceInSymbols(text, 2);
    assert Repeat('=', 1) == "=" && Repeat('=', 2) == "==";
    if |text| % 4 == 3 { OneSignDropped(text); }
    if |text| % 4 == 2 { TwoSignsDropped(text); }
  }

  lemma SpaceStep(c: char, s: string)
    ensures WithoutSpace([c] + s) == (if IsAsciiSpace(c) then "" else [c]) + WithoutSpace(s)
  {
    assert ([c] + s)[1..] == s;
  }

  lemma {:induction false} SpacesConcat(a: string, b: string)
    ensures WithoutSpace(a + b) == WithoutSpace(a) + WithoutSpace(b)
  {
    if a == "" {
      assert a + b == b;
      EmptyPlus(WithoutSpace(b));
    } else {
      SpacesConcat(a[1..], b);
      ConsConcat(a, b);
      SpaceStep(a[0], a[1..] + b);
      Regroup(if IsAsciiSpace(a[0]) then "" else [a[0]], WithoutSpace(a[1..]), WithoutSpace(b));
    }
  }

  /** Tabs, line feeds, form feeds, carriage returns and spaces do not matter wherever they stand. */
  lemma AtobIgnoresSpace(a: string, c: char, b: string)
    requires (c as int) in {0x9, 0xA, 0xC, 0xD, 0x20}
    ensures Atob(a + [c] + b) == Atob(a + b)
  {
    SpacesConcat(a + [c], b);
    SpacesConcat(a, [c]);
    SpacesConcat(a, b);
    EmptyPlus([c]);
    SpaceStep(c, "");
    EmptyPlus(WithoutSpace(a));
  }

  /** Symbols, and behind them as many signs as fill the last group up: none, one or two. */
  predicate IsPadded(s: string, text: string, signs: nat) {
    && s == text + Repeat('=', signs) && |text| % 4 != 1
    && (signs == 0 || (signs <= 2 && (|text| + signs) % 4 == 0))
    && forall k | 0 <= k < |text| :: text[k] in STANDARD
  }

  lemma InTable(c: char)
    ensures c in STANDARD <==> IsSymbol(c)
  {
    if IsSymbol(c) {
      SymbolIs(DigitOf(c));
      DigitOfSymbol(DigitOf(c));
      assert Symbol(DigitOf(c)) == c;
    }
    if c in STANDARD {
      var d :| 0 <= d < |STANDARD| && STANDARD[d] == c;
      SymbolIs(d);
      DigitOfSymbol(d);
    }
  }

  lemma AllInTable(text: string)
    ensures AllSymbols(text) <==> forall k | 0 <= k < |text| :: text[k] in STANDARD
  {
    forall k | 0 <= k < |text| ensures text[k] in STANDARD <==> IsSymbol(text[k]) {
      InTable(text[k]);
    }
  }

  lemma UnpaddedIsPadded(s: string) returns (signs: nat)
    requires |Unpadded(s)| % 4 != 1
    ensures s == Unpadded(s) + Repeat('=', signs) && (signs == 0 || (signs <= 2 && (|Unpadded(s)| + signs) % 4 == 0))
  {
    var t := Unpadded(s);
    signs := |s| - |t|;
    assert Repeat('=', 0) == "" && Repeat('=', 1) == "=" && Repeat('=', 2) == "==";
    assert s == t + Repeat('=', signs);
  }

  /** Exactly which texts without white space `atob` accepts. */
  lemma AtobAcceptsIff(s: string)
    requires forall k | 0 <= k < |s| :: (s[k] as int) !in {0x9, 0xA, 0xC, 0xD, 0x20}
    ensures Atob(s).Some? <==> exists text, signs: nat :: IsPadded(s, text, signs)
  {
    assert WithoutSpace(s) == s by {
      NoSpaceKept(s);
    }
    if Atob(s).Some? {
      var signs := UnpaddedIsPadded(s);
      AllInTable(Unpadded(s));
      assert IsPadded(s, Unpadded(s), signs);
    }
    if text, signs: nat :| IsPadded(s, text, signs) {
      AllInTable(text);
      PaddingIsCut(text, signs);
    }
  }

  lemma PaddingIsCut(text: string, signs: nat)
    requires AllSymbols(text) && |text| % 4 != 1 && (signs == 0 || (signs <= 2 && (|text| + signs) % 4 == 0))
    ensures Unpadded(text + Repeat('=', signs)) == text
  {
    if text != "" { LastIsNoPadding(text); }
    assert Repeat('=', 0) == "" && Repeat('=', 1) == "=" && Repeat('=', 2) == "==";
    if signs == 0 {
      assert text + "" == text;
    } else if signs == 1 {
      OneSignDropped(text);
    } else {
      TwoSignsDropped(text);
    }
  }

  lemma PlainKept(s: string)
    requires AllSymbols(s)
    ensures Unpadded(WithoutSpace(s)) == s
  {
    NoSpaceInSymbols(s, 0);
    assert s + Repeat('=', 0) == s;
    if s != "" { LastIsNoPadding(s); }
  }

  lemma SameText(x: string, y: string)
    requires Unpadded(WithoutSpace(x)) == Unpadded(WithoutSpace(y))
    ensures Atob(x) == Atob(y)
  {
  }

  lemma OneAlone(s: string)
    requires AllSymbols(s) && |s| % 4 == 1
    ensures Atob(s) == None
  {
    PlainKept(s);
  }

  lemma PaddedIsPlain(s: string)
    requires AllSymbols(s)
    ensures Atob(s + Repeat('=', Missing(|s|))) == Atob(s)
  {
    if |s| % 4 == 1 {
      ThreeSigns(s);
      OneAlone(s);
    } else {
      PlainKept(s);
      PaddingDropped(s);
      SameText(s + Repeat('=', Missing(|s|)), s);
    }
  }

  lemma PaddedReads(s: string, digits: seq<Digit>)
    requires Spells(s, digits)
    ensures Atob(s + Repeat('=', Missing(|s|))) == Atob(s)
  {
    SpelledDigits(s, digits);
    PaddedIsPlain(s);
  }

  lemma SpellsStandard(id: string, digits: seq<Digit>)
    requires |id| == |digits| && forall k | 0 <= k < |id| :: id[k] == URL_SAFE[digits[k]]
    ensures Spells(ReplaceAll(ReplaceAll(id, '-', '+'), '_', '/'), digits)
  {
    forall k | 0 <= k < |id| ensures ReplaceAll(ReplaceAll(id, '-', '+'), '_', '/')[k] == STANDARD[digits[k]] {
      UrlSymbolBack(digits[k]);
    }
  }

  /**
   * What an id in the URL alphabet decodes to: the bytes that its digits are in number, without padding; one symbol
   * alone in a group is rejected.
   */
  lemma FromUrlReads(id: string, digits: seq<Digit>)
    requires |id| == |digits| && forall k | 0 <= k < |id| :: id[k] == URL_SAFE[digits[k]]
    ensures FromBase64Url(id).Some? <==> |id| % 4 != 1
    ensures FromBase64Url(id).Some? ==>
              && |FromBase64Url(id).value| == 3 * |id| / 4
              && forall i | 0 <= i < |FromBase64Url(id).value| ::
                   FromBase64Url(id).value[i] == EightBits(FourDigits(digits, i / 3), i % 3)
  {
    var s := ReplaceAll(ReplaceAll(id, '-', '+'), '_', '/');
    SpellsStandard(id, digits);
    PaddedReads(s, digits);
    AtobReads(s, digits);
  }

  lemma UrlSymbolBack(d: Digit)
    ensures var c := URL_SAFE[d]; (if (if c == '-' then '+' else c) == '_' then '/' else if c == '-' then '+' else c) == STANDARD[d]
  {
    SymbolIs(d);
    DigitOfSymbol(d);
  }

  /** Three signs are never padding. */
  lemma ThreeSigns(s: string)
    requires AllSymbols(s) && |s| % 4 == 1
    ensures Atob(s + Repeat('=', 3)) == None
  {
    var padded := s + Repeat('=', 3);
    NoSpaceInSymbols(s, 3);
    assert padded[|s|] == '=' && padded[|s| + 1] == '=' && padded[|s| + 2] == '=';
    assert Unpadded(padded) == padded[..|s| + 1];
    assert !IsSymbol(padded[..|s| + 1][|s|]);
  }
}

/**
 * `btoa` and `atob`, and the unpadded URL alphabet of section 5 of RFC 4648 as
 * packages/shared/src/projectId.ts derives it from them.
 */
module Base64 {
  import opened Options
  import opened Unicode

  type Digit = d: int | 0 <= d < 64

  /** The standard alphabet. */
  function Symbol(d: Digit): char {
    var i: int := d;
    if i < 26 then 'A' + (i as char)
    else if i < 52 then 'a' + ((i - 26) as char)
    else if i < 62 then '0' + ((i - 52) as char)
    else if i == 62 then '+' else '/'
  }

  predicate IsSymbol(c: char) {
    'A' <= c <= 'Z' || 'a' <= c <= 'z' || '0' <= c <= '9' || c == '+' || c == '/'
  }

  function DigitOf(c: char): Digit
    requires IsSymbol(c)
  {
    if 'A' <= c <= 'Z' then (c as int) - ('A' as int)
    else if 'a' <= c <= 'z' then (c as int) - ('a' as int) + 26
    else if '0' <= c <= '9' then (c as int) - ('0' as int) + 52
    else if c == '+' then 62 else 63
  }

  lemma DigitOfSymbol(d: Digit)
    ensures IsSymbol(Symbol(d)) && DigitOf(Symbol(d)) == d
  {
  }

  /** The six-bit digits of a byte sequence, the last group filled up with zero bits. */
  function Digits(bytes: seq<Byte>): seq<Digit> {
    if bytes == [] then []
    else if |bytes| == 1 then
      var a: int := bytes[0];
      [a / 4, a % 4 * 16]
    else if |bytes| == 2 then
      var a: int, b: int := bytes[0], bytes[1];
      [a / 4, a % 4 * 16 + b / 16, b % 16 * 4]
    else
      var a: int, b: int, c: int := bytes[0], bytes[1], bytes[2];
      [a / 4, a % 4 * 16 + b / 16, b % 16 * 4 + c / 64, c % 64] + Digits(bytes[3..])
  }

  /** The bytes of a digit sequence; leftover bits are discarded. */
  function Bytes(digits: seq<Digit>): seq<Byte>
    requires |digits| % 4 != 1
  {
    if digits == [] then []
    else if |digits| == 2 then
      var a: int, b: int := digits[0], digits[1];
      [a * 4 + b / 16]
    else if |digits| == 3 then
      var a: int, b: int, c: int := digits[0], digits[1], digits[2];
      [a * 4 + b / 16, b % 16 * 16 + c / 4]
    else
      var a: int, b: int, c: int, d: int := digits[0], digits[1], digits[2], digits[3];
      [a * 4 + b / 16, b % 16 * 16 + c / 4, c % 4 * 64 + d] + Bytes(digits[4..])
  }

  /** Digits come four for three bytes, plus one more than the bytes that are left. */
  function DigitCount(n: nat): nat {
    n / 3 * 4 + if n % 3 == 0 then 0 else n % 3 + 1
  }

  lemma {:induction false} DigitsRoundTrip(bytes: seq<Byte>)
    ensures |Digits(bytes)| == DigitCount(|bytes|) && |Digits(bytes)| % 4 != 1
    ensures Bytes(Digits(bytes)) == bytes
  {
    if |bytes| >= 3 {
      DigitsRoundTrip(bytes[3..]);
      var head := Digits(bytes)[..4];
      assert Digits(bytes) == head + Digits(bytes[3..]);
      assert Digits(bytes)[4..] == Digits(bytes[3..]);
      assert bytes == bytes[..3] + bytes[3..];
      assert Bytes(Digits(bytes)) == bytes[..3] + Bytes(Digits(bytes[3..]));
    }
  }

  function Symbols(digits: seq<Digit>): string {
    seq(|digits|, k requires 0 <= k < |digits| => Symbol(digits[k]))
  }

  predicate AllSymbols(s: string) {
    forall k | 0 <= k < |s| :: IsSymbol(s[k])
  }

  function DigitsOf(s: string): seq<Digit>
    requires AllSymbols(s)
  {
    seq(|s|, k requires 0 <= k < |s| => DigitOf(s[k]))
  }

  lemma SymbolsRoundTrip(digits: seq<Digit>)
    ensures AllSymbols(Symbols(digits)) && DigitsOf(Symbols(digits)) == digits
  {
    forall k | 0 <= k < |digits| ensures IsSymbol(Symbols(digits)[k]) && DigitOf(Symbols(digits)[k]) == digits[k] {
      DigitOfSymbol(digits[k]);
    }
  }

  function Repeat(c: char, n: nat): string {
    seq(n, _ => c)
  }

  /** How many `=` signs bring a length up to a multiple of four. */
  function Missing(n: nat): nat {
    (4 - n % 4) % 4
  }

  /** `btoa`, on a string of bytes. */
  function Btoa(bytes: seq<Byte>): string {
    var s := Symbols(Digits(bytes));
    s + Repeat('=', Missing(|s|))
  }

  predicate IsAsciiSpace(c: char) {
    c == ' ' || c == '\t' || c == '\n' || c == '\r' || c as int == 0xC
  }

  function WithoutSpace(s: string): string {
    if s == "" then "" else (if IsAsciiSpace(s[0]) then "" else [s[0]]) + WithoutSpace(s[1..])
  }

  /** Up to two trailing `=` signs are dropped, and only from a length that is a multiple of four. */
  function Unpadded(s: string): string {
    if |s| % 4 != 0 || s == "" || s[|s| - 1] != '=' then s
    else if s[|s| - 2] != '=' then s[..|s| - 1]
    else s[..|s| - 2]
  }

  /** `atob`, or `None` where it throws. */
  function Atob(input: string): Option<seq<Byte>> {
    var s := Unpadded(WithoutSpace(input));
    if |s| % 4 == 1 || !AllSymbols(s) then None else Some(Bytes(DigitsOf(s)))
  }

  lemma {:induction false} NoSpaceKept(s: string)
    requires forall k | 0 <= k < |s| :: !IsAsciiSpace(s[k])
    ensures WithoutSpace(s) == s
  {
    if s != "" {
      assert forall k | 0 <= k < |s[1..]| :: s[1..][k] == s[k + 1];
      NoSpaceKept(s[1..]);
    }
  }

  lemma LastIsNoPadding(s: string)
    requires AllSymbols(s) && s != ""
    ensures s[|s| - 1] != '='
  {
    assert IsSymbol(s[|s| - 1]);
  }

  lemma OneSignDropped(s: string)
    requires s != "" && s[|s| - 1] != '=' && |s| % 4 == 3
    ensures Unpadded(s + "=") == s
  {
    var padded := s + "=";
    assert padded[|s|] == '=' && padded[|s| - 1] == s[|s| - 1];
    assert padded[..|s|] == s;
  }

  lemma TwoSignsDropped(s: string)
    requires |s| % 4 == 2
    ensures Unpadded(s + "==") == s
  {
    var padded := s + "==";
    assert padded[|s|] == '=' && padded[|s| + 1] == '=';
    assert padded[..|s|] == s;
  }

  lemma UnpaddedInverts(s: string)
    requires AllSymbols(s) && |s| % 4 != 1
    ensures Unpadded(s + Repeat('=', Missing(|s|))) == s
  {
    var n := Missing(|s|);
    if s != "" { LastIsNoPadding(s); }
    if n == 0 {
      assert s + Repeat('=', n) == s;
    } else if n == 1 {
      assert Repeat('=', n) == "=";
      OneSignDropped(s);
    } else {
      assert Repeat('=', n) == "==";
      TwoSignsDropped(s);
    }
  }

  lemma PaddingDropped(s: string)
    requires AllSymbols(s) && |s| % 4 != 1
    ensures Unpadded(WithoutSpace(s + Repeat('=', Missing(|s|)))) == s
  {
    var padded := s + Repeat('=', Missing(|s|));
    forall k | 0 <= k < |padded| ensures !IsAsciiSpace(padded[k]) {
      if k < |s| { assert IsSymbol(s[k]); }
    }
    NoSpaceKept(padded);
    UnpaddedInverts(s);
  }

  lemma AtobInverts(bytes: seq<Byte>)
    ensures Atob(Btoa(bytes)) == Some(bytes)
  {
    DigitsRoundTrip(bytes);
    SymbolsRoundTrip(Digits(bytes));
    PaddingDropped(Symbols(Digits(bytes)));
  }

  // ---------- the URL alphabet ----------

  /** `s.replace(/from/g, to)` for single characters. */
  function ReplaceAll(s: string, from: char, to: char): string {
    seq(|s|, k requires 0 <= k < |s| => if s[k] == from then to else s[k])
  }

  /** `s.replace(/=+$/, "")`. */
  function StripPadding(s: string): string {
    if s != "" && s[|s| - 1] == '=' then StripPadding(s[..|s| - 1]) else s
  }

  function ToBase64Url(bytes: seq<Byte>): string {
    StripPadding(ReplaceAll(ReplaceAll(Btoa(bytes), '+', '-'), '/', '_'))
  }

  /** Undo the alphabet, pad to a multiple of four, and decode; `None` where `atob` throws. */
  function FromBase64Url(id: string): Option<seq<Byte>> {
    var s := ReplaceAll(ReplaceAll(id, '-', '+'), '_', '/');
    Atob(s + Repeat('=', Missing(|s|)))
  }

  /** The characters of section 5 of RFC 4648. */
  predicate IsUrlSymbol(c: char) {
    'A' <= c <= 'Z' || 'a' <= c <= 'z' || '0' <= c <= '9' || c == '-' || c == '_'
  }

  lemma {:induction false} StripRepeat(s: string, n: nat)
    requires s == "" || s[|s| - 1] != '='
    ensures StripPadding(s + Repeat('=', n)) == s
  {
    if n == 0 {
      assert s + Repeat('=', 0) == s;
    } else {
      StripRepeat(s, n - 1);
      assert (s + Repeat('=', n))[..|s| + n - 1] == s + Repeat('=', n - 1);
    }
  }

  /** The id before decoding: the standard digits with two symbols exchanged and no padding. */
  lemma UrlForm(bytes: seq<Byte>)
    ensures ToBase64Url(bytes) == ReplaceAll(ReplaceAll(Symbols(Digits(bytes)), '+', '-'), '/', '_')
    ensures forall k | 0 <= k < |ToBase64Url(bytes)| :: IsUrlSymbol(ToBase64Url(bytes)[k])
    ensures |ToBase64Url(bytes)| == DigitCount(|bytes|)
  {
    var s := Symbols(Digits(bytes));
    DigitsRoundTrip(bytes);
    SymbolsRoundTrip(Digits(bytes));
    var u := ReplaceAll(ReplaceAll(s, '+', '-'), '/', '_');
    forall k | 0 <= k < |u| ensures IsUrlSymbol(u[k]) {
      assert IsSymbol(s[k]);
    }
    var n := Missing(|s|);
    assert ReplaceAll(ReplaceAll(Btoa(bytes), '+', '-'), '/', '_') == u + Repeat('=', n);
    StripRepeat(u, n);
  }

  /** Every byte sequence comes back from its unpadded URL form. */
  lemma Base64UrlRoundTrip(bytes: seq<Byte>)
    ensures FromBase64Url(ToBase64Url(bytes)) == Some(bytes)
  {
    var s := Symbols(Digits(bytes));
    UrlForm(bytes);
    SymbolsRoundTrip(Digits(bytes));
    var u := ToBase64Url(bytes);
    assert ReplaceAll(ReplaceAll(u, '-', '+'), '_', '/') == s by {
      forall k | 0 <= k < |s| ensures ReplaceAll(ReplaceAll(u, '-', '+'), '_', '/')[k] == s[k] {
        assert IsSymbol(s[k]);
      }
    }
    AtobInverts(bytes);
  }
}

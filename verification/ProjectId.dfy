/** Project ids: packages/shared/src/projectId.ts. */
module ProjectId {
  import opened Options
  import opened Unicode
  import opened Base64

  function ToUrlProjectId(absolutePath: seq<CodeUnit>): string {
    ToBase64Url(TextEncode(absolutePath))
  }

  /** `/^[A-Za-z0-9_-]+$/`. */
  predicate IsUrlProjectId(value: string) {
    value != "" && forall k | 0 <= k < |value| :: IsUrlSymbol(value[k])
  }

  /** The path behind an id, or `None` where `atob` throws. */
  function PathOf(id: string): Option<seq<CodeUnit>> {
    match FromBase64Url(id)
    case None => None
    case Some(bytes) => Some(TextDecode(bytes))
  }

  /** `fromUrlProjectId` with its two loops: padding the text and copying the bytes. */
  method FromUrlProjectId(id: string) returns (path: Option<seq<CodeUnit>>)
    ensures path == PathOf(id)
  {
    var base64 := ReplaceAll(ReplaceAll(id, '-', '+'), '_', '/');
    ghost var n := |base64|;
    ghost var added := 0;
    ghost var unpadded := base64;
    while |base64| % 4 != 0
      invariant base64 == unpadded + Repeat('=', added)
      invariant added <= Missing(n)
      decreases Missing(n) - added
    {
      base64 := base64 + "=";
      added := added + 1;
    }
    assert added == Missing(n);
    var binary := Atob(base64);
    if binary == None {
      return None;
    }
    var bytes := new Byte[|binary.value|];
    for i := 0 to |binary.value|
      invariant bytes[..i] == binary.value[..i]
    {
      bytes[i] := binary.value[i];
    }
    assert bytes[..] == binary.value;
    return Some(TextDecode(bytes[..]));
  }

  /**
   * Exactly which paths an id gives back: those without lone surrogates that do not start with a
   * byte order mark. For every other path the decoded text is a different one.
   */
  lemma PathRoundTripIff(path: seq<CodeUnit>)
    ensures PathOf(ToUrlProjectId(path)).Some?
    ensures PathOf(ToUrlProjectId(path)) == Some(path)
       <==> NoLoneSurrogate(path) && (path == [] || path[0] != BYTE_ORDER_MARK)
  {
    Base64UrlRoundTrip(TextEncode(path));
    TextRoundTripIff(path);
  }

  /** The id of a path has the format of an id, unless the path is empty. */
  lemma IdIsWellFormedIff(path: seq<CodeUnit>)
    ensures IsUrlProjectId(ToUrlProjectId(path)) <==> path != []
  {
    var bytes := TextEncode(path);
    UrlForm(bytes);
    if path != [] {
      assert ToScalars(path) != [];
      assert bytes != [];
      assert DigitCount(|bytes|) > 0;
    }
  }

  /** Exactly which paths share an id: those that agree but for their lone surrogates, byte order marks included. */
  lemma IdsAgreeIff(p: seq<CodeUnit>, q: seq<CodeUnit>)
    ensures ToUrlProjectId(p) == ToUrlProjectId(q) <==> ToScalars(p) == ToScalars(q)
  {
    Base64UrlRoundTrip(TextEncode(p));
    Base64UrlRoundTrip(TextEncode(q));
    Utf8RoundTrip(ToScalars(p));
    Utf8RoundTrip(ToScalars(q));
  }

  /** So different paths without lone surrogates have different ids. */
  lemma IdsAreDistinct(p: seq<CodeUnit>, q: seq<CodeUnit>)
    requires NoLoneSurrogate(p) && NoLoneSurrogate(q)
    ensures ToUrlProjectId(p) == ToUrlProjectId(q) <==> p == q
  {
    IdsAgreeIff(p, q);
    ScalarsRoundTripIff(p);
    ScalarsRoundTripIff(q);
  }
}

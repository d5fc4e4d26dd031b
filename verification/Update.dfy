/**
 * Release versions and updates: packages/shared/src/update.ts, packages/relay/src/update-routes.ts and
 * the release list of packages/relay/src/index.ts.
 */
module Update {
  import opened Options
  import opened Sequences
  import opened Text
  import opened StableSort

  // ---------- versions ----------

  /** Trimmed, and without one leading `v` or `V`. */
  function NormalizeReleaseVersion(version: string): string {
    var trimmed := Trim(version);
    if trimmed != "" && (trimmed[0] == 'v' || trimmed[0] == 'V') then trimmed[1..] else trimmed
  }

  predicate IsDigit(c: char) {
    '0' <= c <= '9'
  }

  /** How many digits the text starts with. */
  function DigitCount(s: string): (n: nat)
    ensures n <= |s|
  {
    if s == "" || !IsDigit(s[0]) then 0 else 1 + DigitCount(s[1..])
  }

  function NumberOf(digits: string): nat {
    if digits == "" then 0
    else
      var c := digits[|digits| - 1];
      NumberOf(digits[..|digits| - 1]) * 10 + (if IsDigit(c) then c as int - '0' as int else 0)
  }

  /** `(\d+)` and `more` times `\.(\d+)` at the start of a text, and what follows. */
  function TakeNumbers(s: string, more: nat): (r: Option<(seq<nat>, string)>)
    ensures r.Some? ==> |r.value.0| == more + 1
    decreases more
  {
    var d := DigitCount(s);
    var number := NumberOf(s[..d]);
    if d == 0 then None
    else if more == 0 then Some(([number], s[d..]))
    else if d == |s| || s[d] != '.' then None
    else
      match TakeNumbers(s[d + 1..], more - 1)
      case None => None
      case Some((numbers, suffix)) => Some(([number] + numbers, suffix))
  }

  datatype Triple = Triple(major: nat, minor: nat, patch: nat)

  predicate IsLineEnd(c: char) {
    c == '\n' || c == '\r' || c as int == 0x2028 || c as int == 0x2029
  }

  /** `(?:[-+].*)?$`. */
  predicate IsSuffix(s: string) {
    s == "" || ((s[0] == '-' || s[0] == '+') && forall k | 1 <= k < |s| :: !IsLineEnd(s[k]))
  }

  predicate IsReleaseCharacter(c: char) {
    IsDigit(c) || 'A' <= c <= 'Z' || 'a' <= c <= 'z' || c == '.' || c == '-'
  }

  /** `(?:[-+][0-9A-Za-z.-]+)?$`. */
  predicate IsReleaseSuffix(s: string) {
    s == "" || (|s| > 1 && (s[0] == '-' || s[0] == '+') && forall k | 1 <= k < |s| :: IsReleaseCharacter(s[k]))
  }

  function ParseVersion(value: string): Option<Triple> {
    match TakeNumbers(NormalizeReleaseVersion(value), 2)
    case None => None
    case Some((numbers, suffix)) => if IsSuffix(suffix) then Some(Triple(numbers[0], numbers[1], numbers[2])) else None
  }

  predicate IsValidReleaseVersion(value: string) {
    match TakeNumbers(NormalizeReleaseVersion(value), 2)
    case None => false
    case Some((_, suffix)) => IsReleaseSuffix(suffix)
  }

  lemma ReleaseSuffixIsSuffix(suffix: string)
    requires IsReleaseSuffix(suffix)
    ensures IsSuffix(suffix)
  {
    forall k | 1 <= k < |suffix| ensures !IsLineEnd(suffix[k]) {
      assert IsReleaseCharacter(suffix[k]);
    }
  }

  /** Whatever the routes accept as a version, the comparison can read. */
  lemma ValidParses(value: string)
    requires IsValidReleaseVersion(value)
    ensures ParseVersion(value).Some?
  {
    ReleaseSuffixIsSuffix(TakeNumbers(NormalizeReleaseVersion(value), 2).value.1);
  }

  predicate Above(a: Triple, b: Triple) {
    a.major > b.major || (a.major == b.major && (a.minor > b.minor || (a.minor == b.minor && a.patch > b.patch)))
  }

  function CompareParsed(left: Option<Triple>, right: Option<Triple>): int {
    if left == None || right == None then 0
    else if Above(left.value, right.value) then 1
    else if Above(right.value, left.value) then -1
    else 0
  }

  function Compare(a: string, b: string): int {
    CompareParsed(ParseVersion(a), ParseVersion(b))
  }

  /** The loop of `compareSemver`. */
  method CompareTriples(left: Option<Triple>, right: Option<Triple>) returns (r: int)
    ensures r == CompareParsed(left, right)
  {
    if left == None || right == None {
      return 0;
    }
    var l, g := [left.value.major, left.value.minor, left.value.patch], [right.value.major, right.value.minor, right.value.patch];
    for index := 0 to 3
      invariant (index > 0 ==> l[0] == g[0]) && (index > 1 ==> l[1] == g[1]) && (index > 2 ==> l[2] == g[2])
    {
      if l[index] > g[index] {
        return 1;
      }
      if l[index] < g[index] {
        return -1;
      }
    }
    return 0;
  }

  method CompareSemver(a: string, b: string) returns (r: int)
    ensures r == Compare(a, b)
  {
    var left, right := ParseVersion(a), ParseVersion(b);
    r := CompareTriples(left, right);
  }

  predicate IsNewer(current: string, latest: string) {
    current != "unknown" && latest != "" && Compare(latest, current) > 0
  }

  lemma ParsedOrder(left: Option<Triple>, right: Option<Triple>)
    ensures CompareParsed(left, right) == -CompareParsed(right, left)
    ensures left.Some? && right.Some? ==>
              && (CompareParsed(left, right) > 0 <==> Above(left.value, right.value))
              && (CompareParsed(left, right) == 0 <==> left == right)
  {
  }

  /** On versions that parse, the comparison is the order of the triples, whatever their suffixes. */
  lemma CompareIsTripleOrder(a: string, b: string)
    requires ParseVersion(a).Some? && ParseVersion(b).Some?
    ensures var x, y := ParseVersion(a).value, ParseVersion(b).value;
            Compare(a, b) > 0 <==>
              || x.major > y.major
              || (x.major == y.major && x.minor > y.minor)
              || (x.major == y.major && x.minor == y.minor && x.patch > y.patch)
    ensures Compare(a, b) == 0 <==> ParseVersion(a) == ParseVersion(b)
    ensures Compare(a, b) == -Compare(b, a)
  {
    ParsedOrder(ParseVersion(a), ParseVersion(b));
  }

  ghost predicate IsPreorder(versions: set<string>) {
    forall a, b, c | a in versions && b in versions && c in versions :: Compare(a, b) <= 0 && Compare(b, c) <= 0 ==> Compare(a, c) <= 0
  }

  predicate AllParse(versions: set<string>) {
    forall a | a in versions :: ParseVersion(a).Some?
  }

  predicate AllEqual(versions: set<string>) {
    forall a, b | a in versions && b in versions && ParseVersion(a).Some? && ParseVersion(b).Some? :: ParseVersion(a) == ParseVersion(b)
  }

  /**
   * Exactly when `compareSemver` orders a set of strings: all of them are versions, or those that are
   * carry one and the same number. A string that is no version compares equal to everything.
   */
  lemma PreorderIff(versions: set<string>)
    ensures IsPreorder(versions) <==> AllParse(versions) || AllEqual(versions)
  {
    if !AllParse(versions) && !AllEqual(versions) {
      var junk :| junk in versions && ParseVersion(junk) == None;
      var a, b :| a in versions && b in versions && ParseVersion(a).Some? && ParseVersion(b).Some?
                  && ParseVersion(a) != ParseVersion(b);
      CompareIsTripleOrder(a, b);
      assert Compare(a, junk) == 0 && Compare(junk, b) == 0 && Compare(b, junk) == 0 && Compare(junk, a) == 0;
      assert Compare(a, b) > 0 || Compare(b, a) > 0;
    }
  }

  lemma NothingTrimmed(s: string)
    requires s != "" && !IsWhite(s[0]) && !IsWhite(s[|s| - 1])
    ensures Trim(s) == s
  {
  }

  // ---------- versions as they are written ----------

  function DigitOf(v: nat): (c: char)
    requires v < 10
    ensures IsDigit(c) && c as int - '0' as int == v
  {
    '0' + v as char
  }

  function Decimal(n: nat): string {
    (if n < 10 then "" else Decimal(n / 10)) + [DigitOf(n % 10)]
  }

  predicate AllDigits(s: string) {
    forall k | 0 <= k < |s| :: IsDigit(s[k])
  }

  lemma NumberAppend(digits: string, c: char)
    requires IsDigit(c)
    ensures NumberOf(digits + [c]) == NumberOf(digits) * 10 + (c as int - '0' as int)
  {
    FrontOfAppend(digits, c);
  }

  lemma {:induction false} DecimalReads(n: nat)
    ensures Decimal(n) != "" && AllDigits(Decimal(n)) && NumberOf(Decimal(n)) == n
  {
    var head := if n < 10 then "" else Decimal(n / 10);
    if n < 10 {
      assert NumberOf(head) == 0;
    } else {
      DecimalReads(n / 10);
    }
    NumberAppend(head, DigitOf(n % 10));
  }

  lemma {:induction false} DigitsCounted(digits: string, rest: string)
    requires AllDigits(digits) && (rest == "" || !IsDigit(rest[0]))
    ensures DigitCount(digits + rest) == |digits|
  {
    if digits == "" {
      assert digits + rest == rest;
    } else {
      DigitsCounted(digits[1..], rest);
      assert (digits + rest)[1..] == digits[1..] + rest;
    }
  }

  lemma LastNumber(n: nat, suffix: string)
    requires suffix == "" || !IsDigit(suffix[0])
    ensures TakeNumbers(Decimal(n) + suffix, 0) == Some(([n], suffix))
  {
    DecimalReads(n);
    DigitsCounted(Decimal(n), suffix);
    assert (Decimal(n) + suffix)[..|Decimal(n)|] == Decimal(n) && (Decimal(n) + suffix)[|Decimal(n)|..] == suffix;
  }

  lemma NextNumber(n: nat, rest: string, more: nat, numbers: seq<nat>, suffix: string)
    requires more > 0 && TakeNumbers(rest, more - 1) == Some((numbers, suffix))
    ensures TakeNumbers(Decimal(n) + (['.'] + rest), more) == Some(([n] + numbers, suffix))
  {
    var tail := ['.'] + rest;
    var s, d := Decimal(n) + tail, |Decimal(n)|;
    DecimalReads(n);
    DigitsCounted(Decimal(n), tail);
    assert s[..d] == Decimal(n) && s[d] == '.';
    assert s[d + 1..] == tail[1..] == rest;
  }

  function VersionText(t: Triple, suffix: string): string {
    Decimal(t.major) + (['.'] + (Decimal(t.minor) + (['.'] + (Decimal(t.patch) + suffix))))
  }

  lemma VersionTextStarts(t: Triple, suffix: string)
    ensures VersionText(t, suffix) != "" && IsDigit(VersionText(t, suffix)[0])
  {
    DecimalReads(t.major);
    StartsLike(Decimal(t.major), ['.'] + (Decimal(t.minor) + (['.'] + (Decimal(t.patch) + suffix))));
  }

  lemma StartsLike(head: string, tail: string)
    requires head != ""
    ensures head + tail != "" && (head + tail)[0] == head[0]
  {
  }

  lemma VersionTextReads(t: Triple, suffix: string)
    requires suffix == "" || !IsDigit(suffix[0])
    ensures TakeNumbers(VersionText(t, suffix), 2) == Some(([t.major, t.minor, t.patch], suffix))
  {
    var patch := Decimal(t.patch) + suffix;
    LastNumber(t.patch, suffix);
    NextNumber(t.minor, patch, 1, [t.patch], suffix);
    NextNumber(t.major, Decimal(t.minor) + (['.'] + patch), 2, [t.minor] + [t.patch], suffix);
    Three(t.major, t.minor, t.patch);
  }

  lemma Three(a: nat, b: nat, c: nat)
    ensures [a] + ([b] + [c]) == [a, b, c]
  {
  }

  lemma Normalized(text: string)
    requires text != "" && IsDigit(text[0]) && !IsWhite(text[|text| - 1])
    ensures NormalizeReleaseVersion(text) == text && NormalizeReleaseVersion(['v'] + text) == text
  {
    NothingTrimmed(text);
    NothingTrimmed(['v'] + text);
    assert (['v'] + text)[1..] == text;
  }

  lemma ParsesTo(value: string, t: Triple, suffix: string)
    requires TakeNumbers(NormalizeReleaseVersion(value), 2) == Some(([t.major, t.minor, t.patch], suffix)) && IsSuffix(suffix)
    ensures ParseVersion(value) == Some(t)
  {
  }

  /** A version that is printed, with or without `v` and with any suffix, is read back as its three numbers. */
  lemma PrintedVersionParses(t: Triple, suffix: string, text: string)
    requires text == VersionText(t, suffix) && IsSuffix(suffix) && (text == "" || !IsWhite(text[|text| - 1]))
    ensures ParseVersion(text) == Some(t) && ParseVersion(['v'] + text) == Some(t)
  {
    VersionTextStarts(t, suffix);
    VersionTextReads(t, suffix);
    Normalized(text);
    ParsesTo(text, t, suffix);
    ParsesTo(['v'] + text, t, suffix);
  }

  // ---------- the release list ----------

  datatype Release = Release(draft: bool, prerelease: bool, tagName: string, htmlUrl: string)

  datatype Manifest = Manifest(version: string, releaseUrl: string)

  /** Asset lists do not take part in the choice of a release. */
  function ToUpdateManifest(release: Release): Option<Manifest> {
    var version := NormalizeReleaseVersion(release.tagName);
    if !IsValidReleaseVersion(version) || release.htmlUrl == "" then None else Some(Manifest(version, release.htmlUrl))
  }

  /** Published releases with a version and an address. */
  predicate IsEligible(release: Release) {
    !release.draft && !release.prerelease && ToUpdateManifest(release).Some?
  }

  function Manifests(releases: seq<Release>): seq<Manifest> {
    if releases == [] then []
    else
      var last := releases[|releases| - 1];
      Manifests(releases[..|releases| - 1]) + (if IsEligible(last) then [ToUpdateManifest(last).value] else [])
  }

  predicate IsReleased(m: Manifest) {
    IsValidReleaseVersion(m.version)
  }

  /** `(left, right) => compareSemver(right.version, left.version)` puts the first argument first. */
  predicate NewerFirst(a: Manifest, b: Manifest) {
    Compare(b.version, a.version) < 0
  }

  function LatestManifest(releases: seq<Release>): Option<Manifest> {
    var candidates := Sorted(Manifests(releases), NewerFirst);
    if candidates == [] then None else Some(candidates[0])
  }

  lemma VersionsAreOrdered()
    ensures ConsistentFor(IsReleased, NewerFirst)
  {
    forall x | IsReleased(x) ensures ParseVersion(x.version).Some? {
      ValidParses(x.version);
    }
  }

  lemma {:induction false} ManifestsAreEligible(releases: seq<Release>)
    ensures forall k | 0 <= k < |Manifests(releases)| :: IsReleased(Manifests(releases)[k])
    ensures forall r | r in releases && IsEligible(r) :: ToUpdateManifest(r).value in Manifests(releases)
    ensures forall m | m in Manifests(releases) :: exists r | r in releases :: IsEligible(r) && ToUpdateManifest(r).value == m
  {
    if releases != [] {
      var front, last := releases[..|releases| - 1], releases[|releases| - 1];
      ManifestsAreEligible(front);
      assert releases == front + [last];
    }
  }

  lemma FirstManifest(manifests: seq<Manifest>)
    requires manifests != [] && forall k | 0 <= k < |manifests| :: IsReleased(manifests[k])
    ensures var sorted := Sorted(manifests, NewerFirst);
            && sorted != [] && sorted[0] in manifests && IsReleased(sorted[0])
            && forall m | m in manifests :: Compare(m.version, sorted[0].version) <= 0
  {
    VersionsAreOrdered();
    FirstPlaceIs(manifests, NewerFirst);
    FirstIsBest(manifests, IsReleased, NewerFirst);
    var latest := manifests[FirstPlace(manifests, NewerFirst)];
    forall m | m in manifests ensures Compare(m.version, latest.version) <= 0 {
      var k :| 0 <= k < |manifests| && manifests[k] == m;
      assert !NewerFirst(manifests[k], latest);
      ParsedOrder(ParseVersion(latest.version), ParseVersion(m.version));
    }
  }

  /** Without any eligible release there is no manifest. */
  lemma NoManifestIff(releases: seq<Release>)
    ensures LatestManifest(releases) == None <==> forall r | r in releases :: !IsEligible(r)
  {
    var manifests := Manifests(releases);
    ManifestsAreEligible(releases);
    if manifests == [] {
      assert Sorted(manifests, NewerFirst) == [];
    } else {
      FirstManifest(manifests);
      assert manifests[0] in manifests;
    }
  }

  /** The manifest that is offered is an eligible release, and no other eligible release is newer. */
  lemma LatestIsNewest(releases: seq<Release>)
    requires LatestManifest(releases).Some?
    ensures var latest := LatestManifest(releases).value;
            && IsReleased(latest)
            && (exists r | r in releases :: IsEligible(r) && ToUpdateManifest(r).value == latest)
            && forall r | r in releases && IsEligible(r) :: Compare(ToUpdateManifest(r).value.version, latest.version) <= 0
  {
    var manifests := Manifests(releases);
    ManifestsAreEligible(releases);
    NoManifestIff(releases);
    assert manifests != [] by {
      assert Sorted([], NewerFirst) == [];
    }
    FirstManifest(manifests);
  }

  // ---------- the update route ----------

  datatype Answer = InvalidCurrentVersion | NoContent | Offer(manifest: Manifest)

  function FallbackManifest(version: string): Manifest {
    Manifest(version, "https://github.com/april-jk/AgentLine/releases/tag/v" + version)
  }

  /** `getUpdateForCurrentVersion`, for the manifest that was fetched. */
  function UpdateFor(param: string, manifest: Option<Manifest>, appVersion: string): Answer {
    var current := NormalizeReleaseVersion(param);
    if !IsValidReleaseVersion(current) then InvalidCurrentVersion
    else
      var latest := if manifest.Some? then manifest.value.version else appVersion;
      if !IsValidReleaseVersion(latest) || !IsNewer(current, latest) then NoContent
      else Offer(if manifest.Some? then manifest.value else FallbackManifest(latest))
  }

  lemma ValidStartsWithDigit(value: string)
    requires IsValidReleaseVersion(value)
    ensures NormalizeReleaseVersion(value) != "" && IsDigit(NormalizeReleaseVersion(value)[0])
  {
    assert DigitCount(NormalizeReleaseVersion(value)) > 0;
  }

  lemma UnknownIsInvalid(value: string)
    requires value == "unknown" || value == ""
    ensures !IsValidReleaseVersion(value)
  {
    if IsValidReleaseVersion(value) {
      ValidStartsWithDigit(value);
      if value != "" {
        NothingTrimmed(value);
      }
    }
  }

  /** Both are versions, and the first has the larger triple. */
  predicate IsAbove(a: string, b: string) {
    ParseVersion(a).Some? && ParseVersion(b).Some? && Above(ParseVersion(a).value, ParseVersion(b).value)
  }

  /** An update is offered exactly when both versions are valid and the offered one is strictly above the current one. */
  lemma OfferIffNewer(param: string, manifest: Option<Manifest>, appVersion: string)
    ensures var current := NormalizeReleaseVersion(param);
            var latest := if manifest.Some? then manifest.value.version else appVersion;
            && (UpdateFor(param, manifest, appVersion).Offer? <==>
                  && IsValidReleaseVersion(current) && IsValidReleaseVersion(latest)
                  && ParseVersion(latest).Some? && ParseVersion(current).Some?
                  && var x, y := ParseVersion(latest).value, ParseVersion(current).value;
                     || x.major > y.major
                     || (x.major == y.major && x.minor > y.minor)
                     || (x.major == y.major && x.minor == y.minor && x.patch > y.patch))
            && (UpdateFor(param, manifest, appVersion).Offer? ==>
                  UpdateFor(param, manifest, appVersion).manifest
                  == if manifest.Some? then manifest.value
                     else Manifest(appVersion, "https://github.com/april-jk/AgentLine/releases/tag/v" + appVersion))
            && (UpdateFor(param, manifest, appVersion) == InvalidCurrentVersion <==> !IsValidReleaseVersion(current))
  {
    var current := NormalizeReleaseVersion(param);
    var latest := if manifest.Some? then manifest.value.version else appVersion;
    if current == "unknown" { UnknownIsInvalid(current); }
    if latest == "" { UnknownIsInvalid(latest); }
    if IsValidReleaseVersion(current) && IsValidReleaseVersion(latest) {
      ValidParses(current);
      ValidParses(latest);
      CompareIsTripleOrder(latest, current);
    }
  }

  /** End to end: with a fetched release list, an update is offered exactly when some eligible release is above the current version. */
  lemma OfferIffSomeReleaseIsNewer(param: string, releases: seq<Release>, appVersion: string)
    requires IsValidReleaseVersion(NormalizeReleaseVersion(param)) && LatestManifest(releases).Some?
    ensures UpdateFor(param, LatestManifest(releases), appVersion).Offer? <==>
              exists r | r in releases ::
                IsEligible(r) && Compare(ToUpdateManifest(r).value.version, NormalizeReleaseVersion(param)) > 0
  {
    var current, latest := NormalizeReleaseVersion(param), LatestManifest(releases).value;
    OfferIffNewer(param, LatestManifest(releases), appVersion);
    LatestIsNewest(releases);
    ValidParses(current);
    ValidParses(latest.version);
    forall r | r in releases && IsEligible(r)
      ensures Compare(ToUpdateManifest(r).value.version, current) > 0 ==> Above(ParseVersion(latest.version).value, ParseVersion(current).value)
    {
      var version := ToUpdateManifest(r).value.version;
      ValidParses(version);
      CompareIsTripleOrder(version, latest.version);
      CompareIsTripleOrder(version, current);
    }
    CompareIsTripleOrder(latest.version, current);
  }

  // ---------- the best download ----------

  datatype AssetPlatform = Android | Ios | Macos | Windows | Linux | Desktop | Server | Bridge | Unknown

  datatype Download = Download(platform: AssetPlatform, kind: string, name: string)

  predicate IsClientPlatform(p: AssetPlatform) {
    p == Android || p == Ios || p == Macos || p == Windows || p == Linux
  }

  predicate IsDesktopPlatform(p: AssetPlatform) {
    p == Macos || p == Windows || p == Linux
  }

  method ScoreDownload(download: Download, platform: AssetPlatform) returns (score: int)
    ensures score == Score(download, platform)
    ensures score == (if download.platform == platform then 100 else 0)
                     + (match platform
                        case Macos => if download.kind == "dmg" then 30 else 0
                        case Windows => if download.kind == "installer" then 30 else 0
                        case Linux => if download.kind == "appimage" then 30 else 0
                        case Android => if download.kind == "apk" then 40 else 0
                        case _ => 0)
                     + (if download.platform == Desktop then 10 else 0)
                     + (if download.kind == "aab" || download.kind == "xcarchive" then -50 else 0)
  {
    score := 0;
    if download.platform == platform { score := score + 100; }
    if platform == Macos && download.kind == "dmg" { score := score + 30; }
    if platform == Windows && download.kind == "installer" { score := score + 30; }
    if platform == Linux && download.kind == "appimage" { score := score + 30; }
    if platform == Android && download.kind == "apk" { score := score + 40; }
    if download.platform == Desktop { score := score + 10; }
    if download.kind == "aab" || download.kind == "xcarchive" { score := score - 50; }
  }

  predicate IsStorePackage(download: Download) {
    download.kind == "aab" || download.kind == "xcarchive"
  }

  predicate IsPreferredKind(download: Download, platform: AssetPlatform) {
    || (platform == Macos && download.kind == "dmg")
    || (platform == Windows && download.kind == "installer")
    || (platform == Linux && download.kind == "appimage")
    || (platform == Android && download.kind == "apk")
  }

  function Score(download: Download, platform: AssetPlatform): int {
    (if download.platform == platform then 100 else 0)
    + (if !IsPreferredKind(download, platform) then 0 else if platform == Android then 40 else 30)
    + (if download.platform == Desktop then 10 else 0)
    - (if IsStorePackage(download) then 50 else 0)
  }

  predicate Installable(download: Download, platform: AssetPlatform, includeStorePackages: bool) {
    && download.platform != Bridge
    && (includeStorePackages || !IsStorePackage(download))
    && (download.platform == platform || (download.platform == Desktop && IsDesktopPlatform(platform)))
  }

  function Eligible(downloads: seq<Download>, platform: AssetPlatform, includeStorePackages: bool): seq<Download> {
    if downloads == [] then []
    else
      var last := downloads[|downloads| - 1];
      Eligible(downloads[..|downloads| - 1], platform, includeStorePackages)
      + (if Installable(last, platform, includeStorePackages) then [last] else [])
  }

  /** The larger score comes first. */
  function ByScore(platform: AssetPlatform): (Download, Download) -> bool {
    (a: Download, b: Download) => Score(a, platform) > Score(b, platform)
  }

  /** `sort` by score; the position decides between equal scores, as in any stable sort. */
  function SelectBestUpdateDownload(downloads: seq<Download>, platform: AssetPlatform, includeStorePackages: bool): Option<Download> {
    var sorted := Sorted(Eligible(downloads, platform, includeStorePackages), ByScore(platform));
    if sorted == [] then None else Some(sorted[0])
  }

  lemma {:induction false} EligibleAre(downloads: seq<Download>, platform: AssetPlatform, includeStorePackages: bool)
    ensures forall d :: d in Eligible(downloads, platform, includeStorePackages)
                        <==> d in downloads && Installable(d, platform, includeStorePackages)
  {
    if downloads != [] {
      var front, last := downloads[..|downloads| - 1], downloads[|downloads| - 1];
      EligibleAre(front, platform, includeStorePackages);
      assert downloads == front + [last];
    }
  }

  /** Where an eligible download stands in the list, and that the eligible ones before it stand before. */
  lemma {:induction false} EligiblePlace(downloads: seq<Download>, platform: AssetPlatform, includeStorePackages: bool, e: nat)
    returns (k: nat)
    requires e < |Eligible(downloads, platform, includeStorePackages)|
    ensures k < |downloads| && downloads[k] == Eligible(downloads, platform, includeStorePackages)[e]
    ensures Eligible(downloads[..k], platform, includeStorePackages) == Eligible(downloads, platform, includeStorePackages)[..e]
  {
    var front := downloads[..|downloads| - 1];
    if e < |Eligible(front, platform, includeStorePackages)| {
      k := EligiblePlace(front, platform, includeStorePackages, e);
      assert downloads[..k] == front[..k];
    } else {
      k := |downloads| - 1;
    }
  }

  /** The download at `k` can be installed, nothing installable scores more, and nothing before it as much. */
  predicate IsFirstBest(downloads: seq<Download>, platform: AssetPlatform, includeStorePackages: bool, k: nat) {
    && k < |downloads| && Installable(downloads[k], platform, includeStorePackages)
    && forall j | 0 <= j < |downloads| && Installable(downloads[j], platform, includeStorePackages) ::
         && Score(downloads[j], platform) <= Score(downloads[k], platform)
         && (j < k ==> Score(downloads[j], platform) < Score(downloads[k], platform))
  }

  /** Nothing scores more than the element at `best`, and nothing before it as much. */
  predicate TopAt(eligible: seq<Download>, platform: AssetPlatform, best: nat)
    requires best < |eligible|
  {
    forall i | 0 <= i < |eligible| ::
      && Score(eligible[i], platform) <= Score(eligible[best], platform)
      && (i < best ==> Score(eligible[i], platform) < Score(eligible[best], platform))
  }

  lemma EligibleBestIsFirst(downloads: seq<Download>, platform: AssetPlatform, includeStorePackages: bool, best: nat) returns (k: nat)
    requires best < |Eligible(downloads, platform, includeStorePackages)|
    requires TopAt(Eligible(downloads, platform, includeStorePackages), platform, best)
    ensures IsFirstBest(downloads, platform, includeStorePackages, k)
    ensures downloads[k] == Eligible(downloads, platform, includeStorePackages)[best]
  {
    k := EligiblePlace(downloads, platform, includeStorePackages, best);
    EligibleAre(downloads, platform, includeStorePackages);
    EligibleAre(downloads[..k], platform, includeStorePackages);
    forall j | 0 <= j < |downloads| && Installable(downloads[j], platform, includeStorePackages)
      ensures Score(downloads[j], platform) <= Score(downloads[k], platform)
      ensures j < k ==> Score(downloads[j], platform) < Score(downloads[k], platform)
    {
      var eligible := Eligible(downloads, platform, includeStorePackages);
      assert downloads[j] in downloads;
      if j < k {
        assert downloads[j] in downloads[..k];
        var i :| 0 <= i < best && eligible[..best][i] == downloads[j];
        assert eligible[i] == downloads[j];
      } else {
        var i :| 0 <= i < |eligible| && eligible[i] == downloads[j];
      }
    }
  }

  lemma BestScores(eligible: seq<Download>, platform: AssetPlatform)
    requires eligible != []
    ensures TopAt(eligible, platform, FirstPlace(eligible, ByScore(platform)))
  {
    var best := FirstPlace(eligible, ByScore(platform));
    FirstIsBest(eligible, (d: Download) => true, ByScore(platform));
    forall i | 0 <= i < |eligible|
      ensures Score(eligible[i], platform) <= Score(eligible[best], platform)
      ensures i < best ==> Score(eligible[i], platform) < Score(eligible[best], platform)
    {
      assert !ByScore(platform)(eligible[i], eligible[best]);
      if i < best { assert ByScore(platform)(eligible[best], eligible[i]); }
    }
  }

  /** The download that is selected is the first of those that can be installed with the top score. */
  lemma SelectedIsBest(downloads: seq<Download>, platform: AssetPlatform, includeStorePackages: bool)
    ensures var best := SelectBestUpdateDownload(downloads, platform, includeStorePackages);
            && (best == None <==> forall d | d in downloads :: !Installable(d, platform, includeStorePackages))
            && (best.Some? ==> exists k: nat :: IsFirstBest(downloads, platform, includeStorePackages, k) && downloads[k] == best.value)
  {
    var eligible := Eligible(downloads, platform, includeStorePackages);
    EligibleAre(downloads, platform, includeStorePackages);
    if eligible != [] {
      assert eligible[0] in eligible;
      FirstPlaceIs(eligible, ByScore(platform));
      BestScores(eligible, platform);
      var k := EligibleBestIsFirst(downloads, platform, includeStorePackages, FirstPlace(eligible, ByScore(platform)));
    }
  }

  lemma NothingScoresMore(downloads: seq<Download>, platform: AssetPlatform, includeStorePackages: bool, d: Download)
    requires d in downloads && Installable(d, platform, includeStorePackages)
    ensures var best := SelectBestUpdateDownload(downloads, platform, includeStorePackages);
            best.Some? && Installable(best.value, platform, includeStorePackages) && Score(d, platform) <= Score(best.value, platform)
  {
    SelectedIsBest(downloads, platform, includeStorePackages);
    var best := SelectBestUpdateDownload(downloads, platform, includeStorePackages);
    var k: nat :| IsFirstBest(downloads, platform, includeStorePackages, k) && downloads[k] == best.value;
    var j :| 0 <= j < |downloads| && downloads[j] == d;
  }

  /** A download for the platform itself always wins over one for any desktop. */
  lemma OwnPlatformWins(downloads: seq<Download>, platform: AssetPlatform, includeStorePackages: bool, own: Download)
    requires IsClientPlatform(platform)
    requires own in downloads && Installable(own, platform, includeStorePackages) && own.platform == platform
    ensures SelectBestUpdateDownload(downloads, platform, includeStorePackages).Some?
    ensures SelectBestUpdateDownload(downloads, platform, includeStorePackages).value.platform == platform
  {
    NothingScoresMore(downloads, platform, includeStorePackages, own);
  }

  // ---------- versions and releases, character by character ----------

  /** White space around, and one `v` or `V` in front, do not belong to a version. */
  lemma NormalizedIs(before: string, core: string, after: string)
    requires OnlyWhite(before) && OnlyWhite(after) && IsTight(core)
    ensures NormalizeReleaseVersion(before + core + after)
         == if core != "" && (core[0] == 'v' || core[0] == 'V') then core[1..] else core
  {
    TrimOf(before, core, after);
  }

  predicate IsNumber(s: string) {
    s != "" && forall k | 0 <= k < |s| :: '0' <= s[k] <= '9'
  }

  /** Three numbers with dots between them, and what follows. */
  predicate IsThreeNumbers(text: string, a: string, b: string, c: string, suffix: string) {
    IsNumber(a) && IsNumber(b) && IsNumber(c) && text == a + "." + b + "." + c + suffix
  }

  /** Nothing, or a hyphen or plus sign and no line end behind it. */
  predicate EndsVersion(suffix: string) {
    || suffix == ""
    || ((suffix[0] == '-' || suffix[0] == '+')
        && forall k | 1 <= k < |suffix| :: suffix[k] != '\n' && suffix[k] != '\r' && (suffix[k] as int) !in {0x2028, 0x2029})
  }

  /** Nothing, or a hyphen or plus sign and letters, digits, dots and hyphens behind it, at least one. */
  predicate EndsRelease(suffix: string) {
    || suffix == ""
    || (|suffix| > 1 && (suffix[0] == '-' || suffix[0] == '+')
        && forall k | 1 <= k < |suffix| ::
             '0' <= suffix[k] <= '9' || 'A' <= suffix[k] <= 'Z' || 'a' <= suffix[k] <= 'z' || suffix[k] == '.' || suffix[k] == '-')
  }

  lemma {:induction false} DigitsTaken(s: string)
    ensures forall k | 0 <= k < DigitCount(s) :: IsDigit(s[k])
    ensures DigitCount(s) < |s| ==> !IsDigit(s[DigitCount(s)])
  {
    if s != "" && IsDigit(s[0]) {
      DigitsTaken(s[1..]);
      assert forall k | 1 <= k < DigitCount(s) :: s[k] == s[1..][k - 1];
    }
  }

  lemma OneTaken(s: string, more: nat)
    requires more == 0 && TakeNumbers(s, 0).Some?
    ensures IsNumber(s[..DigitCount(s)]) && s == s[..DigitCount(s)] + TakeNumbers(s, 0).value.1
    ensures TakeNumbers(s, 0).value.0 == [NumberOf(s[..DigitCount(s)])]
  {
    DigitsTaken(s);
  }

  lemma CutAt(s: string, d: nat)
    requires d < |s| && s[d] == '.'
    ensures s == s[..d] + (['.'] + s[d + 1..])
  {
  }

  lemma NextTaken(s: string, more: nat)
    requires more > 0 && TakeNumbers(s, more).Some?
    ensures var d := DigitCount(s);
            && d > 0 && d < |s| && s[d] == '.' && TakeNumbers(s[d + 1..], more - 1).Some?
            && TakeNumbers(s, more).value.0 == [NumberOf(s[..d])] + TakeNumbers(s[d + 1..], more - 1).value.0
            && TakeNumbers(s, more).value.1 == TakeNumbers(s[d + 1..], more - 1).value.1
  {
  }

  lemma CountedIsNumber(s: string)
    requires DigitCount(s) > 0
    ensures IsNumber(s[..DigitCount(s)])
  {
    DigitsTaken(s);
  }

  lemma JoinThree(s: string, s1: string, s2: string, a: string, b: string, c: string, suffix: string)
    requires s == a + (['.'] + s1) && s1 == b + (['.'] + s2) && s2 == c + suffix && IsNumber(a) && IsNumber(b) && IsNumber(c)
    ensures IsThreeNumbers(s, a, b, c, suffix)
  {
    Dotted(a, b, c, suffix);
  }

  /** What is taken as three numbers is three numbers. */
  lemma TakenAre(s: string) returns (a: string, b: string, c: string)
    requires TakeNumbers(s, 2).Some?
    ensures IsThreeNumbers(s, a, b, c, TakeNumbers(s, 2).value.1)
    ensures TakeNumbers(s, 2).value.0 == [NumberOf(a), NumberOf(b), NumberOf(c)]
  {
    NextTaken(s, 2);
    CountedIsNumber(s);
    CutAt(s, DigitCount(s));
    a := s[..DigitCount(s)];
    var s1 := s[DigitCount(s) + 1..];
    NextTaken(s1, 1);
    CountedIsNumber(s1);
    CutAt(s1, DigitCount(s1));
    b := s1[..DigitCount(s1)];
    var s2 := s1[DigitCount(s1) + 1..];
    OneTaken(s2, 0);
    c := s2[..DigitCount(s2)];
    JoinThree(s, s1, s2, a, b, c, TakeNumbers(s, 2).value.1);
    Three(NumberOf(a), NumberOf(b), NumberOf(c));
  }

  lemma Dotted(a: string, b: string, c: string, suffix: string)
    ensures a + "." + b + "." + c + suffix == a + (['.'] + (b + (['.'] + (c + suffix))))
  {
    var patch := c + suffix;
    Regroup(a + "." + b + ".", c, suffix);
    Regroup(a + "." + b, ".", patch);
    Regroup(a + ".", b, "." + patch);
    Regroup(a, ".", b + ("." + patch));
  }

  lemma LastTakes(c: string, suffix: string)
    requires IsNumber(c) && (suffix == "" || !IsDigit(suffix[0]))
    ensures TakeNumbers(c + suffix, 0) == Some(([NumberOf(c)], suffix))
  {
    DigitsCounted(c, suffix);
    assert (c + suffix)[..|c|] == c && (c + suffix)[|c|..] == suffix;
  }

  lemma NextTakes(a: string, rest: string, more: nat, numbers: seq<nat>, suffix: string)
    requires IsNumber(a) && more > 0 && TakeNumbers(rest, more - 1) == Some((numbers, suffix))
    ensures TakeNumbers(a + (['.'] + rest), more) == Some(([NumberOf(a)] + numbers, suffix))
  {
    var tail := ['.'] + rest;
    DigitsCounted(a, tail);
    var s := a + tail;
    assert s[..|a|] == a && s[|a|] == '.' && s[|a| + 1..] == rest;
  }

  lemma ThreeTaken(text: string, a: string, b: string, c: string, suffix: string)
    requires IsThreeNumbers(text, a, b, c, suffix) && (suffix == "" || !IsDigit(suffix[0]))
    ensures TakeNumbers(text, 2) == Some(([NumberOf(a), NumberOf(b), NumberOf(c)], suffix))
  {
    LastTakes(c, suffix);
    NextTakes(b, c + suffix, 1, [NumberOf(c)], suffix);
    NextTakes(a, b + (['.'] + (c + suffix)), 2, [NumberOf(b)] + [NumberOf(c)], suffix);
    Dotted(a, b, c, suffix);
    Three(NumberOf(a), NumberOf(b), NumberOf(c));
  }

  lemma SuffixesAre(suffix: string)
    ensures IsSuffix(suffix) <==> EndsVersion(suffix)
    ensures IsReleaseSuffix(suffix) <==> EndsRelease(suffix)
    ensures EndsRelease(suffix) ==> EndsVersion(suffix)
  {
    if IsReleaseSuffix(suffix) { ReleaseSuffixIsSuffix(suffix); }
  }

  /** Exactly which texts are read as versions, and as which numbers. */
  lemma ParsesIff(value: string, t: Triple)
    ensures ParseVersion(value) == Some(t) <==>
              exists a, b, c, suffix ::
                && IsThreeNumbers(NormalizeReleaseVersion(value), a, b, c, suffix) && EndsVersion(suffix)
                && t == Triple(NumberOf(a), NumberOf(b), NumberOf(c))
  {
    var text := NormalizeReleaseVersion(value);
    if ParseVersion(value) == Some(t) {
      var a, b, c := TakenAre(text);
      SuffixesAre(TakeNumbers(text, 2).value.1);
    }
    if a, b, c, suffix :| IsThreeNumbers(text, a, b, c, suffix) && EndsVersion(suffix) && t == Triple(NumberOf(a), NumberOf(b), NumberOf(c)) {
      SuffixesAre(suffix);
      ThreeTaken(text, a, b, c, suffix);
    }
  }

  /** Exactly which texts the update routes accept as versions. */
  lemma ValidIff(value: string)
    ensures IsValidReleaseVersion(value) <==>
              exists a, b, c, suffix ::
                IsThreeNumbers(NormalizeReleaseVersion(value), a, b, c, suffix) && EndsRelease(suffix)
  {
    var text := NormalizeReleaseVersion(value);
    if IsValidReleaseVersion(value) {
      var a, b, c := TakenAre(text);
      SuffixesAre(TakeNumbers(text, 2).value.1);
    }
    if a, b, c, suffix :| IsThreeNumbers(text, a, b, c, suffix) && EndsRelease(suffix) {
      SuffixesAre(suffix);
      ThreeTaken(text, a, b, c, suffix);
    }
  }

  /** Numbers are read to base ten. */
  lemma NumberIs(digits: string, c: char)
    requires '0' <= c <= '9'
    ensures NumberOf("") == 0 && NumberOf(digits + [c]) == NumberOf(digits) * 10 + (c as int - '0' as int)
  {
    NumberAppend(digits, c);
  }

  /** A release is offered only if it is published, no draft and no prerelease, and has a version and an address. */
  lemma EligibleIff(release: Release)
    ensures IsEligible(release) <==>
              && !release.draft && !release.prerelease && release.htmlUrl != ""
              && IsValidReleaseVersion(NormalizeReleaseVersion(release.tagName))
    ensures IsEligible(release) ==>
              ToUpdateManifest(release) == Some(Manifest(NormalizeReleaseVersion(release.tagName), release.htmlUrl))
  {
  }

  /**
   * What can be installed: a download for the platform itself, or one for any desktop on macOS, Windows and Linux, and no
   * package for a store unless that is asked for.
   */
  lemma InstallableIff(d: Download, platform: AssetPlatform, includeStorePackages: bool)
    ensures Installable(d, platform, includeStorePackages) <==>
              && (d.kind == "aab" || d.kind == "xcarchive" ==> includeStorePackages)
              && d.platform != Bridge
              && (d.platform == platform || (d.platform == Desktop && platform in {Macos, Windows, Linux}))
  {
  }
}

/** The title heuristic of `extractTitleFromUrl` (droplinks.js and, in
    identical text, script.js) and the `isValidUrl` predicate. Both rest on
    the platform URL parser, which is not modelled: it is an argument
    `parse` that yields the pathname and hostname, or `None` where the
    parser throws. */
module UrlTitle {
  import opened Wrappers
  import opened Text

  datatype UrlParts = UrlParts(pathname: string, hostname: string)

  /** The platform URL parser, reduced to the two components the store reads. */
  type UrlParser = string -> Option<UrlParts>

  /** `isValidUrl`: the parser accepts the string. */
  predicate IsValidUrl(parse: UrlParser, s: string) {
    parse(s).Some?
  }

  /** `/^\/+/` replaced by the empty string. */
  function StripLeadingSlashes(s: string): (r: string)
    ensures |r| <= |s| && r == s[|s| - |r|..]
    ensures forall i :: 0 <= i < |s| - |r| ==> s[i] == '/'
    ensures r == [] || r[0] != '/'
  {
    if |s| > 0 && s[0] == '/' then StripLeadingSlashes(s[1..]) else s
  }

  /** A character of the class `[^/.]`. */
  predicate IsSegmentChar(c: char) {
    c != '/' && c != '.'
  }

  /** `/\.[^/.]+$/` matches starting at index `j`: a dot followed by one or
      more characters, up to the end, none of them a slash or a dot. */
  ghost predicate IsExtensionAt(s: string, j: int) {
    0 <= j < |s| - 1 && s[j] == '.' &&
    forall k :: j < k < |s| ==> IsSegmentChar(s[k])
  }

  /** Scans leftwards from `i` over segment characters for the dot that
      opens an extension. */
  function ScanForDot(s: string, i: nat): (r: Option<nat>)
    requires i < |s|
    requires forall k :: i <= k < |s| ==> IsSegmentChar(s[k])
    ensures r.Some? ==> IsExtensionAt(s, r.value)
    ensures r.None? ==> forall j :: 0 <= j < i ==> !IsExtensionAt(s, j)
  {
    if i == 0 then None
    else if s[i - 1] == '.' then Some(i - 1)
    else if s[i - 1] == '/' then
      assert forall j :: 0 <= j < i - 1 ==> !IsExtensionAt(s, j) by {
        forall j | 0 <= j < i - 1 ensures !IsExtensionAt(s, j) {
          assert !IsSegmentChar(s[i - 1]);
        }
      }
      None
    else ScanForDot(s, i - 1)
  }

  /** Where the regular expression `/\.[^/.]+$/` matches, if anywhere. */
  function ExtensionDot(s: string): (r: Option<nat>)
    ensures r.Some? ==> IsExtensionAt(s, r.value)
    ensures r.None? ==> forall j :: 0 <= j < |s| ==> !IsExtensionAt(s, j)
  {
    if |s| == 0 || !IsSegmentChar(s[|s| - 1]) then None
    else ScanForDot(s, |s| - 1)
  }

  /** `/\.[^/.]+$/` replaced by the empty string: the trailing extension is
      cut off when there is one, and otherwise the text is unchanged. */
  function DropExtension(s: string): (r: string)
    ensures (exists j :: IsExtensionAt(s, j) && r == s[..j]) ||
            (r == s && forall j :: 0 <= j < |s| ==> !IsExtensionAt(s, j))
  {
    match ExtensionDot(s)
    case Some(j) => s[..j]
    case None => s
  }

  /** `/[-_]/g` replaced by a space. */
  function DashesToSpaces(s: string): (r: string)
    ensures |r| == |s|
    ensures forall i :: 0 <= i < |s| ==> r[i] == if s[i] == '-' || s[i] == '_' then ' ' else s[i]
  {
    if s == [] then []
    else [if s[0] == '-' || s[0] == '_' then ' ' else s[0]] + DashesToSpaces(s[1..])
  }

  /** `\b\w` matches at index `i`: a word character with a non-word character
      (or the start of the text, when `i` is 0 and `prevIsWord` is false)
      before it. */
  predicate StartsWord(s: string, i: nat, prevIsWord: bool)
    requires i < |s|
  {
    IsWordChar(s[i]) && (if i == 0 then !prevIsWord else !IsWordChar(s[i - 1]))
  }

  function CapitalizeFrom(s: string, prevIsWord: bool): (r: string)
    ensures |r| == |s|
    ensures forall i :: 0 <= i < |s| ==>
      r[i] == if StartsWord(s, i, prevIsWord) then ToUpperAscii(s[i]) else s[i]
  {
    if s == [] then []
    else
      var c := if IsWordChar(s[0]) && !prevIsWord then ToUpperAscii(s[0]) else s[0];
      var rest := CapitalizeFrom(s[1..], IsWordChar(s[0]));
      var r := [c] + rest;
      assert forall i :: 0 <= i < |s| ==>
        r[i] == if StartsWord(s, i, prevIsWord) then ToUpperAscii(s[i]) else s[i]
      by {
        forall i | 1 <= i < |s|
          ensures r[i] == if StartsWord(s, i, prevIsWord) then ToUpperAscii(s[i]) else s[i]
        {
          assert r[i] == rest[i - 1] && s[1..][i - 1] == s[i];
          assert StartsWord(s, i, prevIsWord) == StartsWord(s[1..], i - 1, IsWordChar(s[0]));
        }
      }
      r
  }

  /** `/\b\w/g` replaced by its upper-case form: every word character that
      starts a word is upper-cased, every other character is kept. */
  function CapitalizeWords(s: string): (r: string)
    ensures |r| == |s|
    ensures forall i :: 0 <= i < |s| ==>
      r[i] == if StartsWord(s, i, false) then ToUpperAscii(s[i]) else s[i]
  {
    CapitalizeFrom(s, false)
  }

  /** `/^www\./` replaced by the empty string. */
  function StripWww(host: string): (r: string)
    ensures StartsWith(host, "www.") ==> host == "www." + r
    ensures !StartsWith(host, "www.") ==> r == host
  {
    if StartsWith(host, "www.") then host[4..] else host
  }

  /** The title read off the pathname, before the hostname fallback. */
  function PathTitle(pathname: string): string {
    CapitalizeWords(DashesToSpaces(DropExtension(StripLeadingSlashes(pathname))))
  }

  /** `extractTitleFromUrl`. */
  function ExtractTitleFromUrl(parse: UrlParser, url: string): (t: string)
    ensures url != [] ==> t != []
    ensures parse(url).None? ==> t == url
    ensures parse(url).Some? && PathTitle(parse(url).value.pathname) != [] ==>
      t == PathTitle(parse(url).value.pathname)
  {
    match parse(url)
    case None => url
    case Some(parts) =>
      var fromPath := PathTitle(parts.pathname);
      var title := if fromPath == [] then StripWww(parts.hostname) else fromPath;
      if title == [] then url else title
  }

  /** The title is never empty for a non-empty URL; an unparseable URL is its
      own title; a parsed one is titled by its path, or failing that by its
      host without `www.`, or failing that by the URL itself. */
  lemma ExtractTitleCases(parse: UrlParser, url: string)
    ensures url != [] ==> ExtractTitleFromUrl(parse, url) != []
    ensures parse(url).None? ==> ExtractTitleFromUrl(parse, url) == url
    ensures parse(url).Some? ==>
      var parts := parse(url).value;
      var t := ExtractTitleFromUrl(parse, url);
      (PathTitle(parts.pathname) != [] ==> t == PathTitle(parts.pathname)) &&
      (PathTitle(parts.pathname) == [] && StripWww(parts.hostname) != [] ==> t == StripWww(parts.hostname)) &&
      (PathTitle(parts.pathname) == [] && StripWww(parts.hostname) == [] ==> t == url)
  {
  }

  /** A title read off a path has no hyphen or underscore left, does not
      start with a slash, and has no lower-case letter at the start of a
      word. */
  lemma PathTitleShape(pathname: string)
    ensures var t := PathTitle(pathname);
      (forall i :: 0 <= i < |t| ==> t[i] != '-' && t[i] != '_') &&
      (t == [] || t[0] != '/') &&
      (forall i :: 0 <= i < |t| && StartsWord(t, i, false) ==> !('a' <= t[i] <= 'z'))
  {
    var stripped := StripLeadingSlashes(pathname);
    var cut := DropExtension(stripped);
    assert cut == [] || cut[0] == stripped[0];
    var spaced := DashesToSpaces(cut);
    var t := CapitalizeWords(spaced);
  }
}

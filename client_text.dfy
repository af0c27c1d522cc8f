/**
 * The client's string decisions: the file name taken from a download's
 * Content-Disposition header, the path the download is saved to, and the
 * server URL as it is saved in the configuration.
 */
module ClientText {
  import opened Wrappers
  import opened Wire
  import PosixPath

  predicate OccursAt(s: string, pat: string, i: nat)
  {
    i + |pat| <= |s| && s[i..i + |pat|] == pat
  }

  /** The first occurrence of `pat` in `s` at or after `from`. */
  function IndexFrom(s: string, pat: string, from: nat): (r: Option<nat>)
    decreases |s| - from
    ensures r.Some? ==> from <= r.value && OccursAt(s, pat, r.value)
    ensures r.Some? ==> forall j | from <= j < r.value :: !OccursAt(s, pat, j)
    ensures r.None? ==> forall j: nat | from <= j :: !OccursAt(s, pat, j)
  {
    if from + |pat| > |s| then None
    else if OccursAt(s, pat, from) then Some(from)
    else IndexFrom(s, pat, from + 1)
  }

  function IndexOf(s: string, pat: string): Option<nat>
  {
    IndexFrom(s, pat, 0)
  }

  /** Python's `pat in s`. */
  predicate Contains(s: string, pat: string)
  {
    IndexOf(s, pat).Some?
  }

  /** A slice in which no occurrence of `pat` starts does not contain `pat`. */
  lemma NoOccurrenceInSlice(s: string, pat: string, lo: nat, hi: nat)
    requires |pat| > 0 && lo <= hi <= |s|
    requires forall k | lo <= k < hi :: !OccursAt(s, pat, k)
    ensures !Contains(s[lo..hi], pat)
  {
    var t := s[lo..hi];
    forall j | 0 <= j < |t|
      ensures !OccursAt(t, pat, j)
    {
      if j + |pat| <= |t| {
        assert forall m | j <= m < j + |pat| :: t[m] == s[lo + m];
        assert t[j..j + |pat|] == s[lo + j..lo + j + |pat|];
        assert !OccursAt(s, pat, lo + j);
      }
    }
  }

  /** Python's `s.rstrip(cs)`. */
  function TrimRight(s: string, cs: set<char>): (r: string)
    ensures |r| <= |s| && r == s[..|r|]
    ensures r == [] || r[|r| - 1] !in cs
    ensures forall k | |r| <= k < |s| :: s[k] in cs
  {
    if s != [] && s[|s| - 1] in cs then TrimRight(s[..|s| - 1], cs) else s
  }

  /** How many characters of `cs` begin `s`. */
  function Leading(s: string, cs: set<char>): (n: nat)
    ensures n <= |s| && (n == |s| || s[n] !in cs)
    ensures forall k | 0 <= k < n :: s[k] in cs
  {
    if s != [] && s[0] in cs then 1 + Leading(s[1..], cs) else 0
  }

  /**
   * Python's `s.strip(cs)`: the slice of `s` left once every character of
   * `cs` is cut from both ends, so that no character of `cs` remains at
   * either end.
   */
  function Strip(s: string, cs: set<char>): (r: string)
    ensures var lo := Leading(s, cs);
      && lo + |r| <= |s| && r == s[lo..lo + |r|]
      && forall k | lo + |r| <= k < |s| :: s[k] in cs
    ensures r == [] || (r[0] !in cs && r[|r| - 1] !in cs)
  {
    var lo := Leading(s, cs);
    TrimRightOfSuffix(s, cs, lo);
    TrimRight(s[lo..], cs)
  }

  /** `rstrip` of a suffix is a slice of the whole, followed only by characters of `cs`. */
  lemma TrimRightOfSuffix(s: string, cs: set<char>, lo: nat)
    requires lo <= |s|
    ensures var r := TrimRight(s[lo..], cs);
      && lo + |r| <= |s| && r == s[lo..lo + |r|]
      && forall k | lo + |r| <= k < |s| :: s[k] in cs
  {
    var t := s[lo..];
    var r := TrimRight(t, cs);
    assert r == t[..|r|];
    assert t[..|r|] == s[lo..lo + |r|];
    forall k | lo + |r| <= k < |s|
      ensures s[k] in cs
    {
      assert s[k] == t[k - lo];
    }
  }

  /** Stripping a string with no character of `cs` at either end changes nothing. */
  lemma StripUnchanged(s: string, cs: set<char>)
    requires s == [] || (s[0] !in cs && s[|s| - 1] !in cs)
    ensures Strip(s, cs) == s
  {
  }

  const QuoteChars: set<char> := {'"', '\''}

  /** An occurrence in a suffix is an occurrence in the whole string, shifted. */
  lemma OccursInSuffix(s: string, pat: string, off: nat, j: nat)
    requires off <= |s|
    ensures OccursAt(s[off..], pat, j) <==> OccursAt(s, pat, off + j)
  {
    if off + j + |pat| <= |s| {
      assert s[off..][j..j + |pat|] == s[off + j..off + j + |pat|];
    }
  }

  /**
   * `s.split(pat)[1]` when `s` has `pat` at `first` and nowhere before:
   * the text from the end of that occurrence up to the next one, or to the
   * end of `s` when there is no next one.
   */
  function SecondField(s: string, pat: string, first: nat): (r: string)
    requires |pat| > 0 && OccursAt(s, pat, first)
    ensures first + |pat| + |r| <= |s| && r == s[first + |pat|..first + |pat| + |r|]
    ensures first + |pat| + |r| == |s| || OccursAt(s, pat, first + |pat| + |r|)
    ensures forall k | first + |pat| <= k < first + |pat| + |r| :: !OccursAt(s, pat, k)
    ensures !Contains(r, pat)
  {
    var off := first + |pat|;
    var rest := s[off..];
    match IndexOf(rest, pat)
    case None =>
      forall k | off <= k < |s| ensures !OccursAt(s, pat, k) {
        OccursInSuffix(s, pat, off, k - off);
      }
      rest
    case Some(j) =>
      assert rest[..j] == rest[0..j];
      NoOccurrenceInSlice(rest, pat, 0, j);
      OccursInSuffix(s, pat, off, j);
      forall k | off <= k < off + j ensures !OccursAt(s, pat, k) {
        OccursInSuffix(s, pat, off, k - off);
      }
      rest[..j]
  }

  /**
   * The file name a download response declares: the text after the first
   * `filename=` and before any later one, quotes stripped from both ends;
   * None when the header is absent, empty, or has no `filename=`.
   */
  function ExtractFilename(contentDisposition: Option<string>): (name: Option<string>)
    ensures name.Some? <==> contentDisposition.Some? && Contains(contentDisposition.value, FilenameKey)
    ensures name.Some? ==> !Contains(name.value, FilenameKey)
    ensures name.Some? ==> name.value == [] || (name.value[0] !in QuoteChars && name.value[|name.value| - 1] !in QuoteChars)
    ensures contentDisposition.Some? && Contains(contentDisposition.value, FilenameKey) ==>
      var h := contentDisposition.value;
      name == Some(Strip(SecondField(h, FilenameKey, IndexOf(h, FilenameKey).value), QuoteChars))
  {
    if contentDisposition.None? || contentDisposition.value == "" then None
    else
      match IndexOf(contentDisposition.value, FilenameKey)
      case None => None
      case Some(i) =>
        var field := SecondField(contentDisposition.value, FilenameKey, i);
        var name := Strip(field, QuoteChars);
        var lo := Leading(field, QuoteChars);
        var hi := lo + |name|;
        NoOccurrenceInSlice(field, FilenameKey, lo, hi);
        Some(name)
  }

  /** The name a download is saved under in a directory: the declared one, else `download_<id>`. */
  function SaveName(filename: Option<string>, fileId: string): (name: string)
    ensures name != []
    ensures filename.Some? && filename.value != [] ==> name == filename.value
    ensures filename.None? || filename.value == [] ==> name == "download_" + fileId
  {
    if filename.None? || filename.value == [] then "download_" + fileId else filename.value
  }

  /**
   * The destination of a download: a directory receives the file under its
   * save name, joined as `os.path.join` does; any other output path is used
   * as it is.
   */
  function ResolvePath(outputPath: string, isDirectory: bool, filename: Option<string>, fileId: string): (path: string)
    ensures !isDirectory ==> path == outputPath
    ensures isDirectory ==> path == PosixPath.Join(outputPath, SaveName(filename, fileId))
  {
    if isDirectory then PosixPath.Join(outputPath, SaveName(filename, fileId)) else outputPath
  }

  /** The server URL as saved: every trailing `/` removed. */
  function NormalizeServerUrl(url: string): (r: string)
    ensures |r| <= |url| && r == url[..|r|]
    ensures r == [] || r[|r| - 1] != '/'
    ensures forall k | |r| <= k < |url| :: url[k] == '/'
  {
    TrimRight(url, {'/'})
  }

  /** Normalizing a saved URL again changes nothing. */
  lemma NormalizeServerUrlIdempotent(url: string)
    ensures NormalizeServerUrl(NormalizeServerUrl(url)) == NormalizeServerUrl(url)
  {
  }
}

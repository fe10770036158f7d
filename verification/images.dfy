/** Classes/FileHandler/Images.php: the local file name of a cached API
    image and the decision whether to (re)download it. The filesystem, the
    clock, URL parsing and the download are inputs. */
module Images {
  import opened Php
  import Converter

  /** Images::normalizeFileName: as Converter's, but "--" is replaced by "-"
      in a single str_replace pass instead of collapsing whole runs */
  function NormalizeFileName(name: string): string
  {
    Replace(Converter.FilterName(name), "--", "-")
  }

  lemma {:induction false} ReplaceDoubleHyphenChars(s: string)
    requires forall i :: 0 <= i < |s| ==> Converter.IsNameChar(s[i])
    ensures forall i :: 0 <= i < |Replace(s, "--", "-")| ==> Converter.IsNameChar(Replace(s, "--", "-")[i])
  {
    var r := Replace(s, "--", "-");
    ReplaceChars(s, "--", "-");
    forall i | 0 <= i < |r| ensures Converter.IsNameChar(r[i]) {
      assert r[i] in r;
      if r[i] != '-' {
        var k :| 0 <= k < |s| && s[k] == r[i];
      }
    }
  }

  /** The result holds only [a-z0-9-] */
  lemma NormalizeFileNameChars(name: string)
    ensures forall i :: 0 <= i < |NormalizeFileName(name)| ==> Converter.IsNameChar(NormalizeFileName(name)[i])
  {
    Converter.FilterNameChars(name);
    ReplaceDoubleHyphenChars(Converter.FilterName(name));
  }

  /** The pass changes nothing where no two hyphens meet */
  lemma {:induction false} ReplaceNoDouble(s: string)
    requires Converter.NoDoubleHyphen(s)
    ensures Replace(s, "--", "-") == s
    decreases |s|
  {
    if |s| >= 2 {
      assert s[..2] != "--" by { assert !(s[0] == '-' && s[1] == '-'); }
      assert Converter.NoDoubleHyphen(s[1..]) by {
        forall i | 0 <= i < |s[1..]| - 1 ensures !(s[1..][i] == '-' && s[1..][i + 1] == '-') {
          assert s[1..][i] == s[i + 1] && s[1..][i + 1] == s[i + 2];
        }
      }
      ReplaceNoDouble(s[1..]);
      assert [s[0]] + s[1..] == s;
    }
  }

  /** Whitespace runs between two words become one '-' */
  lemma NormalizeFileNameJoinsWords(p: string, ws: string, q: string)
    requires forall i :: 0 <= i < |p| ==> Converter.IsNameChar(p[i])
    requires forall i :: 0 <= i < |q| ==> Converter.IsNameChar(q[i])
    requires ws != [] && forall i :: 0 <= i < |ws| ==> IsSpace(ws[i])
    requires Converter.NoDoubleHyphen(p + "-" + q)
    ensures NormalizeFileName(p + ws + q) == p + "-" + q
  {
    Converter.FilterNameJoinsWords(p, ws, q);
    ReplaceNoDouble(p + "-" + q);
  }

  lemma SingleHyphenKept()
    ensures Replace("b", "--", "-") == "b"
    ensures Replace("-b", "--", "-") == "-b"
  {
    assert Replace("b", "--", "-") == "b";
    assert "-b"[..2][1] != "--"[1];
    assert Replace("-b", "--", "-") == "-" + Replace("b", "--", "-");
  }

  lemma TripleHyphenStep()
    ensures Replace("a---b", "--", "-") == "a--b"
  {
    SingleHyphenKept();
    assert "---b"[..2] == "--";
    assert Replace("---b", "--", "-") == "-" + Replace("-b", "--", "-");
    assert "a---b"[..2][0] != "--"[0];
    assert Replace("a---b", "--", "-") == "a" + Replace("---b", "--", "-");
  }

  lemma DoubleHyphenStep()
    ensures Replace("a--b", "--", "-") == "a-b"
  {
    SingleHyphenKept();
    assert "--b"[..2] == "--";
    assert Replace("--b", "--", "-") == "-" + Replace("b", "--", "-");
    assert "a--b"[..2][0] != "--"[0];
    assert Replace("a--b", "--", "-") == "a" + Replace("--b", "--", "-");
  }

  /** Three hyphens in a row survive as two: the pass does not collapse runs,
      and normalising again changes the name, so unlike Converter's
      normalisation this one is not idempotent */
  lemma TripleHyphenNotCollapsed()
    ensures NormalizeFileName("a---b") == "a--b"
    ensures NormalizeFileName(NormalizeFileName("a---b")) == "a-b"
    ensures Converter.NormalizeFileName("a---b") != NormalizeFileName("a---b")
  {
    Converter.FilterNameIdentity("a---b");
    TripleHyphenStep();
    Converter.FilterNameIdentity("a--b");
    DoubleHyphenStep();
    Converter.NormalizeFileNameNoDoubleHyphen("a---b");
    assert !Converter.NoDoubleHyphen("a--b") by { assert "a--b"[1] == '-' && "a--b"[2] == '-'; }
  }

  /** createOptimalFilename: the normalised part before the first dot, a dot,
      and the second dot-separated part unchanged (empty when there is none) */
  function CreateOptimalFilename(fileName: string): string
  {
    var seg := Explode(".", fileName);
    NormalizeFileName(seg[0]) + "." + (if |seg| > 1 then seg[1] else "")
  }

  /** For a name made of dot-free parts, only the first two parts matter:
      the stem is normalised, the extension kept, the rest dropped */
  lemma OptimalFilenameOfParts(parts: seq<string>)
    requires |parts| >= 2
    requires forall k :: 0 <= k < |parts| ==> '.' !in parts[k]
    ensures CreateOptimalFilename(Implode(".", parts)) == NormalizeFileName(parts[0]) + "." + parts[1]
  {
    ExplodeImplode('.', parts);
  }

  /** A name without a dot gets a trailing dot and no extension */
  lemma OptimalFilenameWithoutDot(name: string)
    requires '.' !in name
    ensures CreateOptimalFilename(name) == NormalizeFileName(name) + "."
  {
    FindCharAbsent(name, '.');
  }

  /** basename(): trailing slashes dropped, then the part after the last '/' */
  function Basename(path: string): string
  {
    LastSegment("/", StripTrailingSlashes(path))
  }

  /** The path without its trailing slashes: only '/' characters are cut
      off the end, and what is left does not end in '/' */
  function StripTrailingSlashes(s: string): (r: string)
    ensures |r| <= |s| && r == s[..|r|]
    ensures r == [] || r[|r| - 1] != '/'
    ensures forall i :: |r| <= i < |s| ==> s[i] == '/'
  {
    if s != [] && s[|s| - 1] == '/' then StripTrailingSlashes(s[..|s| - 1]) else s
  }

  /** pathinfo($name, PATHINFO_EXTENSION): the text after the last dot of the basename */
  function Extension(name: string): string
  {
    var b := Basename(name);
    if '.' in b then LastSegment(".", b) else ""
  }

  /** The name part of the source URL: the basename up to '?'. With a query
      part, a non-null host and `strpos($host, 'instagram') == false` (no
      match, or a match at position 0, which PHP's == also takes for false),
      the value after the first '=' is put in front with a '-'. */
  function PureFileName(imagesrc: string, host: Option<string>): string
  {
    var split := Explode("?", Basename(imagesrc));
    if |split| > 1 && host.Some? && (Find(host.value, "instagram") in {None, Some(0)}) then
      var kv := Explode("=", split[1]);
      (if |kv| > 1 then kv[1] else "") + "-" + split[0]
    else split[0]
  }

  /** The folder: used as-is when it starts with '/', else below the document root */
  function Folder(localFolder: string, docRoot: string): (r: string)
    ensures localFolder != [] && localFolder[0] == '/' ==> r == localFolder
    ensures (localFolder == [] || localFolder[0] != '/') ==> r == docRoot + localFolder
  {
    if |localFolder| > 0 && localFolder[0] == '/' then localFolder else docRoot + localFolder
  }

  /** Whether the cached file must be refreshed. A missing file always is;
      an existing one only when the change stamp parses (strtotime did not
      return false), is later than the file's mtime, and was given explicitly
      (a null stamp becomes 'now', which never triggers a refresh). */
  function Recreate(localMtime: Option<int>, chstamp: Option<string>, changeStamp: Option<int>): (b: bool)
    ensures localMtime.None? ==> b
    ensures localMtime.Some? ==>
      (b <==> changeStamp.Some? && changeStamp.value > localMtime.value && chstamp.Some? && chstamp.value != "now")
  {
    match localMtime
    case None => true
    case Some(mtime) =>
      var stamp := if chstamp.Some? then chstamp.value else "now";
      (match changeStamp case Some(t) => t > mtime case None => false) && stamp != "now"
  }

  /** The URL an image is fetched from: absolute URLs as given, others below
      the API host; whitespace runs become %20 */
  function FileUrl(imagesrc: string, isUrl: bool, apiUrl: string): string
  {
    ReplaceRuns(if isUrl then imagesrc else apiUrl + imagesrc, IsSpace, "%20")
  }

  /** The array storeApiImage returns */
  datatype ImageResult = ImageResult(
    fileName: string,
    fileFetched: bool,
    requestStatus: Value,
    absolute: string,
    src: string,
    localtime: int,
    externaltime: Value,
    recreate: bool)

  const NoRequest := Str("no request done")

  /** storeApiImage. Inputs stand for what the source asks its environment:
      `host` is parse_url's host, `docRoot` the normalised document root,
      `localMtime` the cached file's mtime (None when is_file fails),
      `changeStamp` strtotime of the stamp (None for false), `isUrl` the
      URL filter, `apiUrl` the API base and `fetchStatus` the HTTP status the
      download reports. */
  method StoreApiImage(imagesrc: string, host: Option<string>, chstamp: Option<string>, localFolder: string,
                       docRoot: string, localMtime: Option<int>, changeStamp: Option<int>,
                       isUrl: bool, apiUrl: string, fetchStatus: int)
    returns (r: ImageResult)
    ensures r.fileName == CreateOptimalFilename(PureFileName(imagesrc, host))
    ensures r.absolute == Folder(localFolder, docRoot) + r.fileName
    ensures r.recreate == Recreate(localMtime, chstamp, changeStamp)
    ensures localMtime.None? ==> r.recreate && r.localtime == 0
    ensures localMtime.Some? ==> r.localtime == localMtime.value
    ensures r.externaltime == (if changeStamp.Some? then Int(changeStamp.value) else Bool(false))
    ensures r.fileFetched <==> r.recreate && Extension(PureFileName(imagesrc, host)) != "svg"
    ensures r.fileFetched ==> r.requestStatus == Int(fetchStatus)
    ensures !r.fileFetched ==> r.requestStatus == NoRequest
    ensures r.recreate && Extension(PureFileName(imagesrc, host)) == "svg" ==> r.src == FileUrl(imagesrc, isUrl, apiUrl)
    ensures !(r.recreate && Extension(PureFileName(imagesrc, host)) == "svg") ==> r.src == Replace(r.absolute, docRoot, "/")
  {
    var pureFileName := PureFileName(imagesrc, host);
    var fileName := CreateOptimalFilename(pureFileName);
    var folder := Folder(localFolder, docRoot);
    var localFile := folder + fileName;
    var extension := Extension(pureFileName);
    r := ImageResult(
      fileName := fileName,
      fileFetched := false,
      requestStatus := NoRequest,
      absolute := localFile,
      src := Replace(localFile, docRoot, "/"),
      localtime := if localMtime.Some? then localMtime.value else 0,
      externaltime := if changeStamp.Some? then Int(changeStamp.value) else Bool(false),
      recreate := Recreate(localMtime, chstamp, changeStamp));
    var fileurl := FileUrl(imagesrc, isUrl, apiUrl);
    if !r.recreate {
      return;
    }
    if extension == "svg" {
      r := r.(src := fileurl);
      return;
    }
    r := r.(requestStatus := Int(fetchStatus));
    r := r.(fileFetched := true);
  }
}

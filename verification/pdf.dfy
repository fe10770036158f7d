/** Classes/FileHandler/Pdf.php: the local name of a cached PDF, the fetch
    decision, and the per-segment URL encoding of an API path. The
    filesystem, the date parser and the download are inputs. */
module Pdf {
  import opened Php

  const ApiUrl := "https://api.vinou.de"

  /** convertFileName: lower case, spaces to '_', the umlauts and ß spelt out,
      the acute accent dropped; one str_replace pass per pair, in this order */
  function ConvertFileName(fileName: string): string
  {
    var lowered := Lower(fileName);
    var s1 := Replace(lowered, " ", "_");
    var s2 := Replace(s1, "ä", "ae");
    var s3 := Replace(s2, "ü", "ue");
    var s4 := Replace(s3, "ö", "oe");
    var s5 := Replace(s4, "Ä", "Ae");
    var s6 := Replace(s5, "Ü", "Ue");
    var s7 := Replace(s6, "Ö", "Oe");
    var s8 := Replace(s7, "ß", "ss");
    Replace(s8, "´", "")
  }

  /** The characters convertFileName removes */
  const Removed := " äüöÄÜÖß´"

  predicate NoneOf(s: string, cs: string)
  {
    forall i :: 0 <= i < |s| ==> s[i] !in cs
  }

  /** One str_replace step keeps the characters removed so far out, and
      removes its own character, when the replacement text holds none of them */
  lemma ReplaceStep(s: string, c: char, to: string, cs: string)
    requires NoneOf(s, cs) && NoneOf(to, cs + [c])
    ensures NoneOf(Replace(s, [c], to), cs + [c])
  {
    var r := Replace(s, [c], to);
    ReplaceChars(s, [c], to);
    ReplaceRemoves(s, c, to) by {
      assert forall i :: 0 <= i < |to| ==> to[i] != (cs + [c])[|cs|];
    }
    forall i | 0 <= i < |r| ensures r[i] !in cs + [c] {
      assert r[i] in r;
      if r[i] in s {
        var k :| 0 <= k < |s| && s[k] == r[i];
      } else {
        var k :| 0 <= k < |to| && to[k] == r[i];
      }
    }
  }

  /** No space and none of ä ü ö Ä Ü Ö ß ´ survives */
  lemma {:induction false} ConvertFileNameRemoves(fileName: string)
    ensures NoneOf(ConvertFileName(fileName), Removed)
  {
    var s0 := Lower(fileName);
    var s3 := Replace(Replace(Replace(s0, " ", "_"), "ä", "ae"), "ü", "ue");
    var s6 := Replace(Replace(Replace(s3, "ö", "oe"), "Ä", "Ae"), "Ü", "Ue");
    FirstSteps(s0);
    MiddleSteps(s3);
    LastSteps(s6);
  }

  lemma FirstSteps(s0: string)
    ensures NoneOf(Replace(Replace(Replace(s0, " ", "_"), "ä", "ae"), "ü", "ue"), " äü")
  {
    var s1 := Replace(s0, " ", "_");
    var s2 := Replace(s1, "ä", "ae");
    ReplaceStep(s0, ' ', "_", "");
    ReplaceStep(s1, 'ä', "ae", " ");
    ReplaceStep(s2, 'ü', "ue", " ä");
  }

  lemma MiddleSteps(s3: string)
    requires NoneOf(s3, " äü")
    ensures NoneOf(Replace(Replace(Replace(s3, "ö", "oe"), "Ä", "Ae"), "Ü", "Ue"), " äüöÄÜ")
  {
    var s4 := Replace(s3, "ö", "oe");
    var s5 := Replace(s4, "Ä", "Ae");
    ReplaceStep(s3, 'ö', "oe", " äü");
    ReplaceStep(s4, 'Ä', "Ae", " äüö");
    ReplaceStep(s5, 'Ü', "Ue", " äüöÄ");
  }

  lemma LastSteps(s6: string)
    requires NoneOf(s6, " äüöÄÜ")
    ensures NoneOf(Replace(Replace(Replace(s6, "Ö", "Oe"), "ß", "ss"), "´", ""), Removed)
  {
    var s7 := Replace(s6, "Ö", "Oe");
    var s8 := Replace(s7, "ß", "ss");
    ReplaceStep(s6, 'Ö', "Oe", " äüöÄÜ");
    ReplaceStep(s7, 'ß', "ss", " äüöÄÜÖ");
    ReplaceStep(s8, '´', "", " äüöÄÜÖß");
  }

  /** In particular the converted name holds no space */
  lemma ConvertFileNameNoSpace(fileName: string)
    ensures ' ' !in ConvertFileName(fileName)
  {
    ConvertFileNameRemoves(fileName);
    var r := ConvertFileName(fileName);
    assert Removed[0] == ' ';
    forall k | 0 <= k < |r| ensures r[k] != ' ' {
      assert r[k] !in Removed;
    }
  }

  /** The characters that pass through convertFileName unchanged */
  predicate IsPlainChar(c: char)
  {
    IsLowerAscii(c) || IsDigit(c) || c in "-_."
  }

  /** A name made of plain characters is its own conversion */
  lemma ConvertFileNamePlain(fileName: string)
    requires forall i :: 0 <= i < |fileName| ==> IsPlainChar(fileName[i])
    ensures ConvertFileName(fileName) == fileName
  {
    assert Lower(fileName) == fileName;
    forall c | c in fileName ensures c !in Removed {
      var k :| 0 <= k < |fileName| && fileName[k] == c;
      assert IsPlainChar(fileName[k]);
    }
    ReplaceAbsent(fileName, ' ', "_");
    ReplaceAbsent(fileName, 'ä', "ae");
    ReplaceAbsent(fileName, 'ü', "ue");
    ReplaceAbsent(fileName, 'ö', "oe");
    ReplaceAbsent(fileName, 'Ä', "Ae");
    ReplaceAbsent(fileName, 'Ü', "Ue");
    ReplaceAbsent(fileName, 'Ö', "Oe");
    ReplaceAbsent(fileName, 'ß', "ss");
    ReplaceAbsent(fileName, '´', "");
  }

  /** Converting depends on the input only through its ASCII lower case */
  lemma ConvertFileNameLower(a: string, b: string)
    requires Lower(a) == Lower(b)
    ensures ConvertFileName(a) == ConvertFileName(b)
  {
  }

  lemma ConvertUpperUmlautOnce()
    ensures ConvertFileName("Ä") == "Ae"
  {
    var s0 := Lower("Ä");
    assert s0 == "Ä";
    ReplaceAbsent(s0, ' ', "_");
    ReplaceAbsent(s0, 'ä', "ae");
    ReplaceAbsent(s0, 'ü', "ue");
    ReplaceAbsent(s0, 'ö', "oe");
    var s5 := Replace(s0, "Ä", "Ae");
    assert s0[..1] == "Ä" && s0[1..] == "";
    assert s5 == "Ae" + Replace("", "Ä", "Ae");
    assert s5 == "Ae";
    ReplaceAbsent(s5, 'Ü', "Ue");
    ReplaceAbsent(s5, 'Ö', "Oe");
    ReplaceAbsent(s5, 'ß', "ss");
    ReplaceAbsent(s5, '´', "");
  }

  /** strtolower leaves the non-ASCII 'Ä' alone, so its spelling "Ae" keeps
      an upper-case letter, and converting again changes the name */
  lemma ConvertFileNameUpperUmlaut()
    ensures ConvertFileName("Ä") == "Ae"
    ensures ConvertFileName(ConvertFileName("Ä")) == "ae"
  {
    ConvertUpperUmlautOnce();
    assert Lower("Ae") == "ae" == Lower("ae");
    ConvertFileNameLower("Ae", "ae");
    ConvertFileNamePlain("ae");
  }

  /** One byte of the UTF-8 form of a string */
  newtype byte = x: int | 0 <= x < 256

  /** The UTF-8 encoding of one character */
  function Utf8(c: char): (r: seq<byte>)
    ensures 1 <= |r| <= 4
    ensures (c as int) < 0x80 ==> r == [c as int as byte]
    ensures (c as int) >= 0x80 ==> forall i :: 0 <= i < |r| ==> r[i] >= 0x80
  {
    var n := c as int;
    if n < 0x80 then [n as byte]
    else if n < 0x800 then [(0xC0 + n / 0x40) as byte, (0x80 + n % 0x40) as byte]
    else if n < 0x10000 then [(0xE0 + n / 0x1000) as byte, (0x80 + n / 0x40 % 0x40) as byte, (0x80 + n % 0x40) as byte]
    else [(0xF0 + n / 0x40000) as byte, (0x80 + n / 0x1000 % 0x40) as byte, (0x80 + n / 0x40 % 0x40) as byte, (0x80 + n % 0x40) as byte]
  }

  function Utf8String(s: string): (r: seq<byte>)
    ensures |r| >= |s|
  {
    if s == [] then [] else Utf8(s[0]) + Utf8String(s[1..])
  }

  /** The bytes rawurlencode leaves as they are: A-Z a-z 0-9 - _ . ~ */
  predicate IsUnreservedByte(b: byte)
  {
    (65 <= b <= 90) || (97 <= b <= 122) || (48 <= b <= 57) || b == 45 || b == 95 || b == 46 || b == 126
  }

  /** An upper-case hexadecimal digit */
  predicate IsHexDigit(c: char)
  {
    ('0' <= c <= '9') || ('A' <= c <= 'F')
  }

  function HexDigit(n: nat): (c: char)
    requires n < 16
    ensures IsHexDigit(c)
  {
    if n < 10 then (48 + n) as char else (55 + n) as char
  }

  function HexValue(c: char): (n: nat)
    requires IsHexDigit(c)
    ensures n < 16 && HexDigit(n) == c
  {
    if c <= '9' then c as int - 48 else c as int - 55
  }

  /** One byte as rawurlencode writes it: itself, or '%' and two upper-case
      hex digits */
  function EncodeByte(b: byte): (r: string)
    ensures IsUnreservedByte(b) ==> r == [b as int as char]
    ensures !IsUnreservedByte(b) ==>
      (|r| == 3 && r[0] == '%' && IsHexDigit(r[1]) && IsHexDigit(r[2]) &&
       16 * HexValue(r[1]) + HexValue(r[2]) == b as int)
  {
    if IsUnreservedByte(b) then [b as int as char]
    else
      var hi := HexDigit(b as int / 16);
      var lo := HexDigit(b as int % 16);
      assert HexValue(hi) == b as int / 16 && HexValue(lo) == b as int % 16;
      ['%', hi, lo]
  }

  /** rawurlencode over the bytes of a string */
  function RawUrlEncodeBytes(bs: seq<byte>): string
  {
    if bs == [] then [] else EncodeByte(bs[0]) + RawUrlEncodeBytes(bs[1..])
  }

  function RawUrlEncode(s: string): string
  {
    RawUrlEncodeBytes(Utf8String(s))
  }

  /** What the encoder can write */
  predicate IsEncodedChar(c: char)
  {
    c == '%' || ((c as int) < 256 && IsUnreservedByte(c as int as byte))
  }

  lemma {:induction false} RawUrlEncodeBytesChars(bs: seq<byte>)
    ensures forall i :: 0 <= i < |RawUrlEncodeBytes(bs)| ==> IsEncodedChar(RawUrlEncodeBytes(bs)[i])
  {
    if bs != [] {
      RawUrlEncodeBytesChars(bs[1..]);
      var e := EncodeByte(bs[0]);
      var r := RawUrlEncodeBytes(bs);
      assert r == e + RawUrlEncodeBytes(bs[1..]);
      forall i | 0 <= i < |r| ensures IsEncodedChar(r[i]) {
        if i < |e| {
          if !IsUnreservedByte(bs[0]) && i > 0 {
            assert r[i] == e[i] && IsHexDigit(e[i]);
          }
        } else {
          assert r[i] == RawUrlEncodeBytes(bs[1..])[i - |e|];
        }
      }
    }
  }

  /** The encoded text holds only unreserved characters, '%' and hex digits,
      so in particular no '/' */
  lemma RawUrlEncodeNoSlash(s: string)
    ensures '/' !in RawUrlEncode(s)
  {
    RawUrlEncodeBytesChars(Utf8String(s));
  }

  /** rawurldecode down to bytes: "%XY" with two hex digits is one byte, any
      other character stands for its own code */
  function RawUrlDecode(t: string): seq<byte>
  {
    if t == [] then []
    else if |t| >= 3 && t[0] == '%' && IsHexDigit(t[1]) && IsHexDigit(t[2]) then
      [(16 * HexValue(t[1]) + HexValue(t[2])) as byte] + RawUrlDecode(t[3..])
    else [(t[0] as int % 256) as byte] + RawUrlDecode(t[1..])
  }

  /** Decoding reads one encoded byte back and goes on with the rest */
  lemma DecodeEncodedByte(b: byte, rest: string)
    ensures RawUrlDecode(EncodeByte(b) + rest) == [b] + RawUrlDecode(rest)
  {
    var e := EncodeByte(b);
    var t := e + rest;
    if IsUnreservedByte(b) {
      assert t[0] == b as int as char && t[1..] == rest;
    } else {
      assert t[0] == '%' && t[1] == e[1] && t[2] == e[2];
      assert t[3..] == rest;
    }
  }

  /** Decoding undoes the encoding, byte for byte */
  lemma {:induction false} RawUrlDecodeEncode(bs: seq<byte>)
    ensures RawUrlDecode(RawUrlEncodeBytes(bs)) == bs
  {
    if bs != [] {
      RawUrlDecodeEncode(bs[1..]);
      DecodeEncodedByte(bs[0], RawUrlEncodeBytes(bs[1..]));
      assert [bs[0]] + bs[1..] == bs;
    }
  }

  /** Text of unreserved ASCII characters is encoded as itself */
  lemma {:induction false} RawUrlEncodeUnreserved(s: string)
    requires forall i :: 0 <= i < |s| ==> (s[i] as int) < 0x80 && IsUnreservedByte(s[i] as int as byte)
    ensures RawUrlEncode(s) == s
  {
    if s != [] {
      RawUrlEncodeUnreserved(s[1..]);
      var bs := Utf8String(s);
      assert bs == [s[0] as int as byte] + Utf8String(s[1..]);
      assert bs[1..] == Utf8String(s[1..]);
      assert [s[0]] + s[1..] == s;
    }
  }

  function EncodeSegments(parts: seq<string>): (r: seq<string>)
    ensures |r| == |parts|
    ensures forall k :: 0 <= k < |parts| ==> r[k] == RawUrlEncode(parts[k])
  {
    if parts == [] then [] else [RawUrlEncode(parts[0])] + EncodeSegments(parts[1..])
  }

  /** rawUrlEncodeApiPath: the text before the first "://", then "://",
      then the '/'-separated segments of the text up to a second "://" each
      encoded (nothing when the URL has no "://") */
  function RawUrlEncodeApiPath(url: string): string
  {
    var urlExplode := Explode("://", url);
    var rest := if |urlExplode| > 1 then urlExplode[1] else "";
    urlExplode[0] + "://" + Implode("/", EncodeSegments(Explode("/", rest)))
  }

  /** The path keeps its segment count: splitting the encoded path at '/'
      gives exactly the encodings of the original segments */
  lemma RawUrlEncodeApiPathSegments(url: string)
    ensures var urlExplode := Explode("://", url);
            var rest := if |urlExplode| > 1 then urlExplode[1] else "";
            var path := RawUrlEncodeApiPath(url)[|urlExplode[0]| + 3..];
            RawUrlEncodeApiPath(url)[..|urlExplode[0]| + 3] == urlExplode[0] + "://" &&
            Explode("/", path) == EncodeSegments(Explode("/", rest))
  {
    var urlExplode := Explode("://", url);
    var rest := if |urlExplode| > 1 then urlExplode[1] else "";
    var enc := EncodeSegments(Explode("/", rest));
    forall k | 0 <= k < |enc| ensures '/' !in enc[k] {
      RawUrlEncodeNoSlash(Explode("/", rest)[k]);
    }
    ExplodeImplode('/', enc);
  }

  /** A URL whose path segments are all unreserved ASCII text is unchanged */
  lemma RawUrlEncodeApiPathPlain(scheme: string, segments: seq<string>)
    requires Find(scheme, "://").None?
    requires segments != []
    requires forall k, i :: 0 <= k < |segments| && 0 <= i < |segments[k]| ==>
      (segments[k][i] as int) < 0x80 && IsUnreservedByte(segments[k][i] as int as byte)
    ensures RawUrlEncodeApiPath(scheme + "://" + Implode("/", segments)) == scheme + "://" + Implode("/", segments)
  {
    var path := Implode("/", segments);
    var url := scheme + "://" + path;
    forall k | 0 <= k < |segments| ensures '/' !in segments[k] {
      forall i | 0 <= i < |segments[k]| ensures segments[k][i] != '/' {
        assert IsUnreservedByte(segments[k][i] as int as byte);
      }
    }
    ImplodeNoSchemeSeparator(segments);
    ExplodeAtFirst(scheme, path);
    ExplodeImplode('/', segments);
    var enc := EncodeSegments(segments);
    forall k | 0 <= k < |segments| ensures enc[k] == segments[k] {
      RawUrlEncodeUnreserved(segments[k]);
    }
    assert enc == segments;
  }

  /** Unreserved segments joined by '/' contain no ':' and hence no "://" */
  lemma ImplodeNoSchemeSeparator(segments: seq<string>)
    requires forall k, i :: 0 <= k < |segments| && 0 <= i < |segments[k]| ==>
      (segments[k][i] as int) < 0x80 && IsUnreservedByte(segments[k][i] as int as byte)
    ensures ':' !in Implode("/", segments)
  {
    if |segments| > 1 {
      ImplodeNoSchemeSeparator(segments[1..]);
      assert forall i :: 0 <= i < |segments[0]| ==> segments[0][i] != ':' by {
        forall i | 0 <= i < |segments[0]| ensures segments[0][i] != ':' {
          assert IsUnreservedByte(segments[0][i] as int as byte);
        }
      }
    } else if |segments| == 1 {
      assert forall i :: 0 <= i < |segments[0]| ==> segments[0][i] != ':' by {
        forall i | 0 <= i < |segments[0]| ensures segments[0][i] != ':' {
          assert IsUnreservedByte(segments[0][i] as int as byte);
        }
      }
    }
  }

  /** Splitting "scheme://path" at "://" when only the first one exists */
  lemma ExplodeAtFirst(scheme: string, path: string)
    requires Find(scheme, "://").None?
    requires ':' !in path
    ensures Explode("://", scheme + "://" + path) == [scheme, path]
  {
    var url := scheme + "://" + path;
    assert OccursAt(url, "://", |scheme|) by {
      assert url[|scheme|..|scheme| + 3] == "://";
    }
    forall j: nat | j < |scheme| ensures !OccursAt(url, "://", j) {
      if j + 3 <= |scheme| {
        assert url[j..j + 3] == scheme[j..j + 3];
        assert !OccursAt(scheme, "://", j);
      } else if j + 1 == |scheme| {
        assert url[j..j + 3][1] == ':' && "://"[1] == '/';
      } else {
        assert j + 2 == |scheme|;
        assert url[j..j + 3][2] == ':' && "://"[2] == '/';
      }
    }
    assert Find(url, "://") == Some(|scheme|);
    assert url[|scheme| + 3..] == path;
    assert url[..|scheme|] == scheme;
    forall j: nat | j + 3 <= |path| ensures !OccursAt(path, "://", j) {
      assert path[j..j + 3][0] == path[j];
      assert path[j] in path;
    }
    assert Find(path, "://") == None;
    assert Explode("://", path) == [path];
  }

  /** The result record of storeApiPDF */
  datatype PdfResult = PdfResult(fileName: string, fileFetched: bool, requestStatus: Value)

  const NoRequest := Str("no request done")

  /** The fetch decision: a missing file, a given stamp newer than the file,
      or a forced download */
  predicate MustFetch(localMtime: Option<int>, chstamp: Option<string>, changeStamp: int, forceDownload: bool)
  {
    localMtime.None? || (chstamp.Some? && changeStamp > localMtime.value) || forceDownload
  }

  /** storeApiPDF. `localMtime` is the local file's mtime (None when it does
      not exist), `changeStamp` the timestamp the date parser gives for the
      stamp (for a null stamp: now), `fetchStatus` what the download
      reports; `request` is the URL curl opens, if any: getExternalPDFBinary
      encodes the API URL segment by segment first. */
  method StoreApiPdf(src: string, localFolder: string, prefix: string, chstamp: Option<string>,
                     forceDownload: bool, localMtime: Option<int>, changeStamp: int, fetchStatus: int)
    returns (r: PdfResult, localFile: string, request: Option<string>)
    ensures r.fileName == ConvertFileName(prefix + LastSegment("/", src))
    ensures localFile == localFolder + r.fileName
    ensures r.fileFetched <==> MustFetch(localMtime, chstamp, changeStamp, forceDownload)
    ensures r.fileFetched ==> r.requestStatus == Int(fetchStatus) && request == Some(RawUrlEncodeApiPath(ApiUrl + src))
    ensures !r.fileFetched ==> r.requestStatus == NoRequest && request == None
  {
    var fileName := LastSegment("/", src);
    var convertedFileName := ConvertFileName(prefix + fileName);
    localFile := localFolder + convertedFileName;
    r := PdfResult(fileName := convertedFileName, fileFetched := false, requestStatus := NoRequest);
    request := None;
    if localMtime.None? {
      request := Some(RawUrlEncodeApiPath(ApiUrl + src));
      r := r.(requestStatus := Int(fetchStatus));
      r := r.(fileFetched := true);
    } else if chstamp.Some? && changeStamp > localMtime.value {
      request := Some(RawUrlEncodeApiPath(ApiUrl + src));
      r := r.(requestStatus := Int(fetchStatus));
      r := r.(fileFetched := true);
    } else if forceDownload {
      request := Some(RawUrlEncodeApiPath(ApiUrl + src));
      r := r.(requestStatus := Int(fetchStatus));
      r := r.(fileFetched := true);
    }
  }
}

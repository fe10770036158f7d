/** Classes/Tools/Converter.php: random strings over a configurable
    alphabet, and the file-name normaliser that fully collapses hyphens. */
module Converter {
  import opened Php

  const DefaultLength := 48
  const DefaultCharmode := "both"
  const DefaultNumbers := true
  const DefaultSpecialChars := false
  const DefaultUnmistakable := false

  const Digits := "0123456789"
  const DigitsUnmistakable := "23456789"
  const LowerLetters := "abcdefghijklmnopqrstuvwxyz"
  const LowerLettersUnmistakable := "abcdefghijkmnopqrstuvwxyz"
  const UpperLetters := "ABCDEFGHIJKLMNOPQRSTUVWXYZ"
  const UpperLettersUnmistakable := "ABCDEFGHJKLMNPRSTUVWXYZ"
  const SpecialChars := "!#%+:=?@"

  predicate LowerEnabled(charmode: string) { charmode == "lower" || charmode == "both" }
  predicate UpperEnabled(charmode: string) { charmode == "upper" || charmode == "both" }

  /** The alphabet generateRandomString draws from, assembled in the
      source's order: digits, lower case, upper case, special characters.
      The charmode is a string here; a non-string charmode, which PHP's
      loose == would also compare, is not modelled. */
  function Charset(charmode: string, numbers: bool, specialChars: bool, unmistakable: bool): string
  {
    (if numbers then (if unmistakable then DigitsUnmistakable else Digits) else "")
    + (if LowerEnabled(charmode) then (if unmistakable then LowerLettersUnmistakable else LowerLetters) else "")
    + (if UpperEnabled(charmode) then (if unmistakable then UpperLettersUnmistakable else UpperLetters) else "")
    + (if specialChars then SpecialChars else "")
  }

  /** Which characters the alphabet holds, class by class */
  lemma CharsetMembership(charmode: string, numbers: bool, specialChars: bool, unmistakable: bool, c: char)
    ensures c in Charset(charmode, numbers, specialChars, unmistakable) <==>
      (numbers && IsDigit(c) && !(unmistakable && (c == '0' || c == '1')))
      || (LowerEnabled(charmode) && IsLowerAscii(c) && !(unmistakable && c == 'l'))
      || (UpperEnabled(charmode) && IsUpperAscii(c) && !(unmistakable && (c == 'I' || c == 'O' || c == 'Q')))
      || (specialChars && c in SpecialChars)
  {
    DigitsExactly(c);
    LowerExactly(c);
    UpperExactly(c);
  }

  lemma DigitsExactly(c: char)
    ensures c in Digits <==> IsDigit(c)
    ensures c in DigitsUnmistakable <==> IsDigit(c) && c != '0' && c != '1'
  {
    if IsDigit(c) {
      var k := c as int - '0' as int;
      assert c == Digits[k];
    }
  }

  lemma LowerExactly(c: char)
    ensures c in LowerLetters <==> IsLowerAscii(c)
    ensures c in LowerLettersUnmistakable <==> IsLowerAscii(c) && c != 'l'
  {
    if IsLowerAscii(c) {
      var k := c as int - 'a' as int;
      assert c == LowerLetters[k];
    }
  }

  lemma UpperExactly(c: char)
    ensures c in UpperLetters <==> IsUpperAscii(c)
    ensures c in UpperLettersUnmistakable <==> IsUpperAscii(c) && c != 'I' && c != 'O' && c != 'Q'
  {
    if IsUpperAscii(c) {
      var k := c as int - 'A' as int;
      assert c == UpperLetters[k];
    }
  }

  /** generateRandomString. mt_rand is the oracle `rand`: its k-th call with
      bounds lo..hi answers rand(k, lo, hi) within those bounds. With an empty
      alphabet and a positive length, mt_rand(0, -1) raises an error, which
      the result reports as None. */
  method GenerateRandomString(length: int, charmode: string, numbers: bool, specialChars: bool,
                              unmistakable: bool, rand: (nat, int, int) -> int)
    returns (r: Option<string>)
    requires forall k: nat, lo: int, hi: int :: lo <= hi ==> lo <= rand(k, lo, hi) <= hi
    ensures r.None? <==> Charset(charmode, numbers, specialChars, unmistakable) == [] && length > 0
    ensures r.Some? ==> |r.value| == (if length > 0 then length else 0)
    ensures r.Some? ==> forall i :: 0 <= i < |r.value| ==>
      var chars := Charset(charmode, numbers, specialChars, unmistakable);
      0 <= rand(i, 0, |chars| - 1) < |chars| && r.value[i] == chars[rand(i, 0, |chars| - 1)]
    ensures r.Some? ==> forall i :: 0 <= i < |r.value| ==> r.value[i] in Charset(charmode, numbers, specialChars, unmistakable)
  {
    var chars := Charset(charmode, numbers, specialChars, unmistakable);
    var str := "";
    var count := |chars|;
    var i := 0;
    while i < length
      invariant 0 <= i <= (if length > 0 then length else 0)
      invariant |str| == i
      invariant count > 0 || i == 0
      invariant forall j :: 0 <= j < i ==> 0 <= rand(j, 0, count - 1) < count && str[j] == chars[rand(j, 0, count - 1)]
    {
      if count == 0 {
        return None;
      }
      var k := rand(i, 0, count - 1);
      str := str + [chars[k]];
      i := i + 1;
    }
    r := Some(str);
  }

  /** With `unmistakable`, no easily confused character can be drawn */
  lemma UnmistakableExcludes(charmode: string, numbers: bool, specialChars: bool, c: char)
    requires c in "01lIOQ"
    ensures c !in Charset(charmode, numbers, specialChars, true)
  {
    CharsetMembership(charmode, numbers, specialChars, true, c);
  }

  /** The default alphabet: 10 digits and 26 letters of each case */
  lemma DefaultCharset()
    ensures |Charset(DefaultCharmode, DefaultNumbers, DefaultSpecialChars, DefaultUnmistakable)| == 62
    ensures forall c ::
      (c in Charset(DefaultCharmode, DefaultNumbers, DefaultSpecialChars, DefaultUnmistakable)
       <==> IsDigit(c) || IsLowerAscii(c) || IsUpperAscii(c))
  {
    forall c ensures c in Charset(DefaultCharmode, DefaultNumbers, DefaultSpecialChars, DefaultUnmistakable)
      <==> IsDigit(c) || IsLowerAscii(c) || IsUpperAscii(c)
    {
      CharsetMembership(DefaultCharmode, DefaultNumbers, DefaultSpecialChars, DefaultUnmistakable, c);
    }
  }

  // ---------------------------------------------------------------------------
  // normalizeFileName

  predicate IsHyphen(c: char) { c == '-' }

  /** The characters a normalised name may hold: [a-z0-9-] */
  predicate IsNameChar(c: char) { IsLowerAscii(c) || IsDigit(c) || c == '-' }

  /** What the case-insensitive filter [^a-z0-9-]i spares */
  predicate IsFilterChar(c: char) { IsNameChar(c) || IsUpperAscii(c) }

  predicate NoDoubleHyphen(s: string)
  {
    forall i :: 0 <= i < |s| - 1 ==> !(s[i] == '-' && s[i + 1] == '-')
  }

  /** The steps normalizeFileName shares with Images::normalizeFileName: lower
      case, umlauts spelt out, whitespace runs to '-', foreign characters dropped */
  function FilterName(name: string): string
  {
    var lowered := Lower(name);
    var spelled := Replace(Replace(Replace(lowered, "ä", "ae"), "ö", "oe"), "ü", "ue");
    var dashed := ReplaceRuns(spelled, IsSpace, "-");
    Keep(dashed, IsFilterChar)
  }

  lemma FilterNameChars(name: string)
    ensures forall i :: 0 <= i < |FilterName(name)| ==> IsNameChar(FilterName(name)[i])
  {
    var lowered := Lower(name);
    var s1 := Replace(lowered, "ä", "ae");
    var s2 := Replace(s1, "ö", "oe");
    var s3 := Replace(s2, "ü", "ue");
    var dashed := ReplaceRuns(s3, IsSpace, "-");
    ReplaceChars(lowered, "ä", "ae");
    ReplaceChars(s1, "ö", "oe");
    ReplaceChars(s2, "ü", "ue");
    ReplaceRunsChars(s3, IsSpace, "-");
    assert forall c :: c in lowered ==> !IsUpperAscii(c);
    assert forall c :: c in dashed ==> !IsUpperAscii(c);
    var r := Keep(dashed, IsFilterChar);
    forall i | 0 <= i < |r| ensures IsNameChar(r[i]) {
      assert r[i] in r;
    }
  }

  /** Converter::normalizeFileName: hyphen runs are collapsed fully */
  function NormalizeFileName(name: string): string
  {
    ReplaceRuns(FilterName(name), IsHyphen, "-")
  }

  /** The result holds only [a-z0-9-] */
  lemma NormalizeFileNameChars(name: string)
    ensures forall i :: 0 <= i < |NormalizeFileName(name)| ==> IsNameChar(NormalizeFileName(name)[i])
  {
    var f := FilterName(name);
    FilterNameChars(name);
    ReplaceRunsChars(f, IsHyphen, "-");
    var r := NormalizeFileName(name);
    forall i | 0 <= i < |r| ensures IsNameChar(r[i]) {
      assert r[i] in r;
      if r[i] != '-' {
        var k :| 0 <= k < |f| && f[k] == r[i];
      }
    }
  }

  lemma ConsNoDoubleHyphen(x: char, t: string)
    requires NoDoubleHyphen(t)
    requires x != '-' || t == [] || t[0] != '-'
    ensures NoDoubleHyphen([x] + t)
  {
    var s := [x] + t;
    forall i | 0 <= i < |s| - 1 ensures !(s[i] == '-' && s[i + 1] == '-') {
      if i > 0 {
        assert s[i] == t[i - 1] && s[i + 1] == t[i];
      }
    }
  }

  /** Collapsing hyphen runs leaves no two hyphens side by side */
  lemma {:induction false} CollapseLeavesNoDoubleHyphen(s: string)
    ensures NoDoubleHyphen(ReplaceRuns(s, IsHyphen, "-"))
    decreases |s|
  {
    if s == [] {
    } else if IsHyphen(s[0]) {
      var t := SkipWhile(s, IsHyphen);
      SkipWhileSuffix(s, IsHyphen);
      CollapseLeavesNoDoubleHyphen(t);
      if t != [] {
        ReplaceRunsHead(t, IsHyphen, "-");
      }
      ConsNoDoubleHyphen('-', ReplaceRuns(t, IsHyphen, "-"));
      assert ReplaceRuns(s, IsHyphen, "-") == ['-'] + ReplaceRuns(t, IsHyphen, "-");
    } else {
      CollapseLeavesNoDoubleHyphen(s[1..]);
      ConsNoDoubleHyphen(s[0], ReplaceRuns(s[1..], IsHyphen, "-"));
    }
  }

  /** Collapsing changes nothing where no two hyphens meet */
  lemma {:induction false} CollapseIdentity(s: string)
    requires NoDoubleHyphen(s)
    ensures ReplaceRuns(s, IsHyphen, "-") == s
    decreases |s|
  {
    if s != [] {
      assert NoDoubleHyphen(s[1..]) by {
        forall i | 0 <= i < |s[1..]| - 1 ensures !(s[1..][i] == '-' && s[1..][i + 1] == '-') {
          assert s[1..][i] == s[i + 1] && s[1..][i + 1] == s[i + 2];
        }
      }
      CollapseIdentity(s[1..]);
      if IsHyphen(s[0]) {
        assert SkipWhile(s, IsHyphen) == SkipWhile(s[1..], IsHyphen);
        assert s[1..] == [] || !IsHyphen(s[1..][0]);
        assert SkipWhile(s[1..], IsHyphen) == s[1..];
      }
      assert [s[0]] + s[1..] == s;
    }
  }

  /** The result never holds "--" */
  lemma NormalizeFileNameNoDoubleHyphen(name: string)
    ensures NoDoubleHyphen(NormalizeFileName(name))
  {
    CollapseLeavesNoDoubleHyphen(FilterName(name));
  }

  /** A name that is already normalised passes through unchanged */
  lemma NormalizedIsFixedPoint(s: string)
    requires forall i :: 0 <= i < |s| ==> IsNameChar(s[i])
    requires NoDoubleHyphen(s)
    ensures NormalizeFileName(s) == s
  {
    FilterNameIdentity(s);
    CollapseIdentity(s);
  }

  /** The filtering steps leave a name over [a-z0-9-] unchanged */
  lemma FilterNameIdentity(s: string)
    requires forall i :: 0 <= i < |s| ==> IsNameChar(s[i])
    ensures FilterName(s) == s
  {
    assert Lower(s) == s;
    assert forall c :: c in s ==> IsNameChar(c);
    ReplaceAbsent(s, 'ä', "ae");
    ReplaceAbsent(s, 'ö', "oe");
    ReplaceAbsent(s, 'ü', "ue");
    ReplaceRunsIdentity(s, IsSpace, "-");
    KeepIdentity(s, IsFilterChar);
  }

  /** A run of whitespace between two filtered words becomes a single '-' */
  lemma {:induction false} FilterNameJoinsWords(p: string, ws: string, q: string)
    requires forall i :: 0 <= i < |p| ==> IsNameChar(p[i])
    requires forall i :: 0 <= i < |q| ==> IsNameChar(q[i])
    requires ws != [] && forall i :: 0 <= i < |ws| ==> IsSpace(ws[i])
    ensures FilterName(p + ws + q) == p + "-" + q
  {
    var s := p + ws + q;
    forall i | 0 <= i < |s| ensures !IsUpperAscii(s[i]) && s[i] != 'ä' && s[i] != 'ö' && s[i] != 'ü' {
      if i < |p| { assert s[i] == p[i]; }
      else if i < |p| + |ws| { assert s[i] == ws[i - |p|]; }
      else { assert s[i] == q[i - |p| - |ws|]; }
    }
    assert Lower(s) == s;
    ReplaceAbsent(s, 'ä', "ae");
    ReplaceAbsent(s, 'ö', "oe");
    ReplaceAbsent(s, 'ü', "ue");
    assert Replace(Replace(Replace(Lower(s), "ä", "ae"), "ö", "oe"), "ü", "ue") == s;
    JoinWords(p, ws, q);
  }

  lemma {:induction false} JoinWords(p: string, ws: string, q: string)
    requires forall i :: 0 <= i < |p| ==> IsNameChar(p[i])
    requires forall i :: 0 <= i < |q| ==> IsNameChar(q[i])
    requires ws != [] && forall i :: 0 <= i < |ws| ==> IsSpace(ws[i])
    ensures Keep(ReplaceRuns(p + ws + q, IsSpace, "-"), IsFilterChar) == p + "-" + q
  {
    ReplaceRunsCollapsesRun(p, ws, q, IsSpace, "-");
    ReplaceRunsIdentity(q, IsSpace, "-");
    var r := p + "-" + q;
    forall i | 0 <= i < |r| ensures IsFilterChar(r[i]) {
      if i < |p| { assert r[i] == p[i]; }
      else if i > |p| { assert r[i] == q[i - |p| - 1]; }
    }
    KeepIdentity(r, IsFilterChar);
  }

  /** An 'ä' between filtered words is spelt out as "ae" */
  lemma {:induction false} FilterNameSpellsUmlaut(p: string, q: string)
    requires forall i :: 0 <= i < |p| ==> IsNameChar(p[i])
    requires forall i :: 0 <= i < |q| ==> IsNameChar(q[i])
    ensures FilterName(p + "ä" + q) == p + "ae" + q
  {
    var s := p + "ä" + q;
    forall i | 0 <= i < |s| ensures !IsUpperAscii(s[i]) {
      if i < |p| { assert s[i] == p[i]; }
      else if i > |p| { assert s[i] == q[i - |p| - 1]; }
    }
    assert Lower(s) == s;
    SpellUmlaut(p, q);
    var t := p + "ae" + q;
    forall i | 0 <= i < |t| ensures IsNameChar(t[i]) {
      if i < |p| { assert t[i] == p[i]; }
      else if i >= |p| + 2 { assert t[i] == q[i - |p| - 2]; }
    }
    FilterTailIdentity(t);
  }

  lemma {:induction false} SpellUmlaut(p: string, q: string)
    requires forall i :: 0 <= i < |p| ==> IsNameChar(p[i])
    requires forall i :: 0 <= i < |q| ==> IsNameChar(q[i])
    ensures Replace(p + "ä" + q, "ä", "ae") == p + "ae" + q
  {
    forall c | c in p ensures c != 'ä' {
      var k :| 0 <= k < |p| && p[k] == c;
    }
    forall c | c in q ensures c != 'ä' {
      var k :| 0 <= k < |q| && q[k] == c;
    }
    ReplaceAbsentPrefix(p, "ä" + q, 'ä', "ae");
    assert p + "ä" + q == p + ("ä" + q);
    var u := "ä" + q;
    assert u[..1] == "ä";
    assert u[1..] == q;
    ReplaceAbsent(q, 'ä', "ae");
    assert Replace(u, "ä", "ae") == "ae" + q;
  }

  /** The steps after the 'ä' replacement leave a name over [a-z0-9-] unchanged */
  lemma {:induction false} FilterTailIdentity(t: string)
    requires forall i :: 0 <= i < |t| ==> IsNameChar(t[i])
    ensures Keep(ReplaceRuns(Replace(Replace(t, "ö", "oe"), "ü", "ue"), IsSpace, "-"), IsFilterChar) == t
  {
    forall c | c in t ensures c != 'ö' && c != 'ü' {
      var k :| 0 <= k < |t| && t[k] == c;
      assert IsNameChar(t[k]);
    }
    ReplaceAbsent(t, 'ö', "oe");
    ReplaceAbsent(t, 'ü', "ue");
    ReplaceRunsIdentity(t, IsSpace, "-");
    KeepIdentity(t, IsFilterChar);
  }

  /** Normalising twice gives what normalising once gives */
  lemma NormalizeFileNameIdempotent(name: string)
    ensures NormalizeFileName(NormalizeFileName(name)) == NormalizeFileName(name)
  {
    NormalizeFileNameChars(name);
    NormalizeFileNameNoDoubleHyphen(name);
    NormalizedIsFixedPoint(NormalizeFileName(name));
  }
}

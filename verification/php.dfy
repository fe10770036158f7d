/** PHP runtime semantics the client code relies on: values as produced by
    json_decode(..., true), isset/empty/??, loose comparison against string
    labels, is_numeric, and the string functions the normalisers use. */
module Php {

  datatype Option<T> = None | Some(value: T)

  /** A PHP value. Arrays are keyed by strings (PHP folds integer-like keys
      onto integers; here both are the key's decimal text); entry order and
      floating-point numbers are not modelled. */
  datatype Value =
    | Null
    | Bool(b: bool)
    | Int(i: int)
    | Str(s: string)
    | Arr(a: map<string, Value>)

  /** isset($m[$k]): present and not null */
  predicate IsSet(m: map<string, Value>, k: string)
  {
    k in m && m[k] != Null
  }

  /** isset($v[$k]) for any value; offsets into strings count as unset */
  predicate IsSetAt(v: Value, k: string)
  {
    v.Arr? && IsSet(v.a, k)
  }

  /** Reading $v[$k]; a missing entry reads as null */
  function At(v: Value, k: string): (r: Value)
    ensures r != Null <==> IsSetAt(v, k)
    ensures IsSetAt(v, k) ==> r == v.a[k]
  {
    if v.Arr? && k in v.a then v.a[k] else Null
  }

  /** `$v ?? $d` where $v has already been read */
  function Coalesce(v: Value, d: Value): (r: Value)
    ensures v != Null ==> r == v
    ensures v == Null ==> r == d
  {
    if v != Null then v else d
  }

  /** PHP's conversion to bool: `if ($v)`, `!$v`, and the negation of empty() */
  predicate Truthy(v: Value)
  {
    match v
    case Null => false
    case Bool(b) => b
    case Int(i) => i != 0
    case Str(s) => s != "" && s != "0"
    case Arr(a) => a != map[]
  }

  /** `$v == $name` as PHP 8 evaluates it, for a name that starts with a
      letter (every switch label and in_array list compared here), hence is
      non-empty and non-numeric (LetterFirstNotNumeric) */
  predicate LooselyEquals(v: Value, name: string)
    requires name != [] && (IsLowerAscii(name[0]) || IsUpperAscii(name[0]))
  {
    match v
    case Str(s) => s == name
    case Bool(b) => b            // a non-empty name other than "0" converts to true
    case Null => false           // null == "" only
    case Int(_) => false         // compared as strings; a decimal never equals a non-numeric name
    case Arr(_) => false         // an array is never equal to a string
  }

  // ---------------------------------------------------------------------------
  // Characters

  predicate IsDigit(c: char) { '0' <= c <= '9' }
  predicate IsLowerAscii(c: char) { 'a' <= c <= 'z' }
  predicate IsUpperAscii(c: char) { 'A' <= c <= 'Z' }

  /** The characters PCRE's \s and is_numeric's whitespace accept: space, \t, \n, \v, \f, \r */
  predicate IsSpace(c: char) { c == ' ' || 9 <= c as int <= 13 }

  // ---------------------------------------------------------------------------
  // is_numeric

  /** Number of leading decimal digits of s */
  function DigitRun(s: string): (n: nat)
    ensures n <= |s|
    ensures forall i :: 0 <= i < n ==> IsDigit(s[i])
    ensures n < |s| ==> !IsDigit(s[n])
  {
    if s != [] && IsDigit(s[0]) then 1 + DigitRun(s[1..]) else 0
  }

  function TrimLeadingSpace(s: string): (r: string)
    ensures |r| <= |s| && r == s[|s| - |r|..]
    ensures r != [] ==> !IsSpace(r[0])
  {
    if s != [] && IsSpace(s[0]) then TrimLeadingSpace(s[1..]) else s
  }

  function TrimTrailingSpace(s: string): (r: string)
    ensures |r| <= |s| && r == s[..|r|]
    ensures r != [] ==> !IsSpace(r[|r| - 1])
  {
    if s != [] && IsSpace(s[|s| - 1]) then TrimTrailingSpace(s[..|s| - 1]) else s
  }

  /** e or E, an optional sign, then at least one digit */
  predicate IsExponent(w: string)
  {
    |w| >= 2 && (w[0] == 'e' || w[0] == 'E') &&
    var x := if w[1] == '+' || w[1] == '-' then w[2..] else w[1..];
    x != [] && DigitRun(x) == |x|
  }

  /** A numeric string in the sense of PHP 8: optional surrounding whitespace,
      an optional sign, digits with an optional fraction (or a fraction alone),
      and an optional exponent */
  predicate IsNumericString(s: string)
  {
    var t := TrimTrailingSpace(TrimLeadingSpace(s));
    var u := if t != [] && (t[0] == '+' || t[0] == '-') then t[1..] else t;
    var i := DigitRun(u);
    var v := u[i..];
    var dot := v != [] && v[0] == '.';
    var j := if dot then DigitRun(v[1..]) else 0;
    var w := if dot then v[1 + j..] else v;
    (i > 0 || j > 0) && (w == [] || IsExponent(w))
  }

  /** is_numeric($v) (floats are not modelled) */
  predicate IsNumeric(v: Value)
  {
    match v
    case Int(_) => true
    case Str(s) => IsNumericString(s)
    case _ => false
  }

  lemma DigitsAreNumeric(s: string)
    requires s != [] && forall i :: 0 <= i < |s| ==> IsDigit(s[i])
    ensures IsNumericString(s)
  {
    assert TrimLeadingSpace(s) == s;
    assert TrimTrailingSpace(s) == s;
    DigitRunAll(s);
  }

  lemma {:induction false} DigitRunAll(s: string)
    requires forall i :: 0 <= i < |s| ==> IsDigit(s[i])
    ensures DigitRun(s) == |s|
  {
    if s != [] { DigitRunAll(s[1..]); }
  }

  /** A string whose first character is a letter is never numeric */
  lemma LetterFirstNotNumeric(s: string)
    requires s != [] && (IsLowerAscii(s[0]) || IsUpperAscii(s[0]))
    ensures !IsNumericString(s)
  {
    assert TrimLeadingSpace(s) == s;
    var t := TrimTrailingSpace(s);
    if t != [] {
      assert t[0] == s[0];
      assert t[0] != '+' && t[0] != '-' && t[0] != '.';
      assert DigitRun(t) == 0;
      assert t[0..] == t;
    }
  }

  // ---------------------------------------------------------------------------
  // Strings

  function NatToString(n: nat): (r: string)
    ensures r != [] && forall i :: 0 <= i < |r| ==> IsDigit(r[i])
  {
    if n < 10 then ["0123456789"[n]] else NatToString(n / 10) + ["0123456789"[n % 10]]
  }

  function LowerChar(c: char): (d: char)
    ensures !IsUpperAscii(d)
    ensures !IsUpperAscii(c) ==> d == c
  {
    if IsUpperAscii(c) then (c as int + 32) as char else c
  }

  /** strtolower: ASCII letters only (PHP 8.2 and later is locale-independent) */
  function Lower(s: string): (r: string)
    ensures |r| == |s|
    ensures forall i :: 0 <= i < |s| ==> r[i] == LowerChar(s[i])
  {
    seq(|s|, i requires 0 <= i < |s| => LowerChar(s[i]))
  }

  /** str_replace($from, $to, $s): one left-to-right pass over non-overlapping occurrences */
  function Replace(s: string, from: string, to: string): string
    decreases |s|
  {
    if from == [] || |s| < |from| then s
    else if s[..|from|] == from then to + Replace(s[|from|..], from, to)
    else [s[0]] + Replace(s[1..], from, to)
  }

  /** Every character str_replace outputs comes from the subject or the replacement */
  lemma {:induction false} ReplaceChars(s: string, from: string, to: string)
    ensures forall c :: c in Replace(s, from, to) ==> c in s || c in to
  {
    if from == [] || |s| < |from| {
    } else if s[..|from|] == from {
      ReplaceChars(s[|from|..], from, to);
      forall c | c in s[|from|..] ensures c in s {
        var k :| 0 <= k < |s[|from|..]| && s[|from|..][k] == c;
        assert s[|from| + k] == c;
      }
    } else {
      ReplaceChars(s[1..], from, to);
    }
  }

  /** Replacing a one-character needle by text that lacks it removes the character */
  lemma {:induction false} ReplaceRemoves(s: string, c: char, to: string)
    requires c !in to
    ensures c !in Replace(s, [c], to)
  {
    if |s| < 1 {
    } else if s[..1] == [c] {
      ReplaceRemoves(s[1..], c, to);
    } else {
      assert s[0] != c;
      ReplaceRemoves(s[1..], c, to);
    }
  }

  /** A one-character needle that does not occur leaves the subject unchanged */
  lemma {:induction false} ReplaceAbsent(s: string, c: char, to: string)
    requires c !in s
    ensures Replace(s, [c], to) == s
  {
    if |s| >= 1 {
      assert s[0] in s && s[..1][0] == s[0];
      assert s[..1] != [c];
      assert forall x :: x in s[1..] ==> x in s;
      ReplaceAbsent(s[1..], c, to);
      assert [s[0]] + s[1..] == s;
    }
  }

  /** A prefix without the one-character needle passes through str_replace as it is */
  lemma {:induction false} ReplaceAbsentPrefix(p: string, q: string, c: char, to: string)
    requires c !in p
    ensures Replace(p + q, [c], to) == p + Replace(q, [c], to)
  {
    if p != [] {
      var s := p + q;
      assert s[..1] == [p[0]] && p[0] != c;
      assert s[1..] == p[1..] + q;
      ReplaceAbsentPrefix(p[1..], q, c, to);
      assert [p[0]] + p[1..] == p;
    } else {
      assert p + q == q;
    }
  }

  /** The suffix of s after its leading characters that satisfy p */
  function SkipWhile(s: string, p: char -> bool): (r: string)
    ensures |r| <= |s|
    ensures s != [] && p(s[0]) ==> |r| < |s|
  {
    if s != [] && p(s[0]) then SkipWhile(s[1..], p) else s
  }

  /** SkipWhile leaves the suffix that starts at the first character not
      satisfying p */
  lemma {:induction false} SkipWhileSuffix(s: string, p: char -> bool)
    ensures SkipWhile(s, p) == s[|s| - |SkipWhile(s, p)|..]
    ensures SkipWhile(s, p) != [] ==> !p(SkipWhile(s, p)[0])
    ensures forall i :: 0 <= i < |s| - |SkipWhile(s, p)| ==> p(s[i])
    decreases |s|
  {
    if s != [] && p(s[0]) {
      SkipWhileSuffix(s[1..], p);
      SkipWhileStep(s, SkipWhile(s[1..], p), p);
    }
  }

  /** One step of SkipWhile: what holds of the rest carries over to s */
  lemma SkipWhileStep(s: string, r: string, p: char -> bool)
    requires s != [] && p(s[0])
    requires |r| <= |s| - 1 && r == s[1..][|s| - 1 - |r|..]
    requires forall i :: 0 <= i < |s| - 1 - |r| ==> p(s[1..][i])
    ensures r == s[|s| - |r|..]
    ensures forall i :: 0 <= i < |s| - |r| ==> p(s[i])
  {
    forall i | 0 <= i < |s| - |r| ensures p(s[i]) {
      if i > 0 {
        assert s[i] == s[1..][i - 1];
      }
    }
  }

  /** preg_replace('/X+/', rep, s) for a one-character class X given by p:
      every maximal run of matching characters becomes one copy of rep */
  function ReplaceRuns(s: string, p: char -> bool, rep: string): string
    decreases |s|
  {
    if s == [] then []
    else if p(s[0]) then rep + ReplaceRuns(SkipWhile(s, p), p, rep)
    else [s[0]] + ReplaceRuns(s[1..], p, rep)
  }

  lemma {:induction false} ReplaceRunsChars(s: string, p: char -> bool, rep: string)
    ensures forall c :: c in ReplaceRuns(s, p, rep) ==> (c in s && !p(c)) || c in rep
  {
    if s == [] {
    } else if p(s[0]) {
      var t := SkipWhile(s, p);
      SkipWhileSuffix(s, p);
      ReplaceRunsChars(t, p, rep);
      forall c | c in t ensures c in s {
        var k :| 0 <= k < |t| && t[k] == c;
        assert s[|s| - |t| + k] == c;
      }
    } else {
      ReplaceRunsChars(s[1..], p, rep);
    }
  }

  /** When no character matches, the replacement changes nothing */
  lemma {:induction false} ReplaceRunsIdentity(s: string, p: char -> bool, rep: string)
    requires forall i :: 0 <= i < |s| ==> !p(s[i])
    ensures ReplaceRuns(s, p, rep) == s
  {
    if s != [] {
      ReplaceRunsIdentity(s[1..], p, rep);
      assert [s[0]] + s[1..] == s;
    }
  }

  /** A prefix with no matching character passes through as it is */
  lemma {:induction false} ReplaceRunsPrefix(pre: string, q: string, p: char -> bool, rep: string)
    requires forall i :: 0 <= i < |pre| ==> !p(pre[i])
    ensures ReplaceRuns(pre + q, p, rep) == pre + ReplaceRuns(q, p, rep)
  {
    if pre != [] {
      var s := pre + q;
      assert s[0] == pre[0] && !p(s[0]);
      assert s[1..] == pre[1..] + q;
      assert ReplaceRuns(s, p, rep) == [pre[0]] + ReplaceRuns(pre[1..] + q, p, rep);
      ReplaceRunsPrefix(pre[1..], q, p, rep);
      assert [pre[0]] + pre[1..] == pre;
    } else {
      assert pre + q == q;
    }
  }

  lemma {:induction false} SkipWhileRun(run: string, q: string, p: char -> bool)
    requires forall i :: 0 <= i < |run| ==> p(run[i])
    requires q == [] || !p(q[0])
    ensures SkipWhile(run + q, p) == q
  {
    if run == [] {
      assert run + q == q;
    } else {
      assert (run + q)[1..] == run[1..] + q;
      SkipWhileRun(run[1..], q, p);
    }
  }

  /** A maximal run of matching characters is replaced by exactly one copy of rep */
  lemma {:induction false} ReplaceRunsCollapsesRun(pre: string, run: string, q: string, p: char -> bool, rep: string)
    requires forall i :: 0 <= i < |pre| ==> !p(pre[i])
    requires run != [] && forall i :: 0 <= i < |run| ==> p(run[i])
    requires q == [] || !p(q[0])
    ensures ReplaceRuns(pre + run + q, p, rep) == pre + rep + ReplaceRuns(q, p, rep)
  {
    var tail := run + q;
    ReplaceRunsPrefix(pre, tail, p, rep);
    assert pre + run + q == pre + tail;
    SkipWhileRun(run, q, p);
    assert tail != [] && tail[0] == run[0] && p(tail[0]);
    assert ReplaceRuns(tail, p, rep) == rep + ReplaceRuns(SkipWhile(tail, p), p, rep);
  }

  /** A non-matching first character is kept in front */
  lemma ReplaceRunsHead(s: string, p: char -> bool, rep: string)
    requires s != [] && !p(s[0])
    ensures ReplaceRuns(s, p, rep) != [] && ReplaceRuns(s, p, rep)[0] == s[0]
  {
  }

  /** array filter of the characters satisfying p (preg_replace of the complement by '') */
  function Keep(s: string, p: char -> bool): (r: string)
    ensures forall i :: 0 <= i < |r| ==> p(r[i])
    ensures forall c :: c in r ==> c in s
    ensures |r| <= |s|
  {
    if s == [] then []
    else if p(s[0]) then [s[0]] + Keep(s[1..], p)
    else Keep(s[1..], p)
  }

  lemma {:induction false} KeepIdentity(s: string, p: char -> bool)
    requires forall i :: 0 <= i < |s| ==> p(s[i])
    ensures Keep(s, p) == s
  {
    if s != [] {
      KeepIdentity(s[1..], p);
      assert [s[0]] + s[1..] == s;
    }
  }

  // ---------------------------------------------------------------------------
  // strpos, explode, implode

  predicate OccursAt(hay: string, needle: string, j: nat)
  {
    j + |needle| <= |hay| && hay[j..j + |needle|] == needle
  }

  /** strpos($hay, $needle): the first occurrence, if any */
  function Find(hay: string, needle: string): (r: Option<nat>)
    ensures r.Some? ==> OccursAt(hay, needle, r.value)
    ensures r.Some? ==> forall j: nat :: j < r.value ==> !OccursAt(hay, needle, j)
    ensures r.None? ==> forall j: nat :: !OccursAt(hay, needle, j)
    decreases |hay|
  {
    if |hay| < |needle| then None
    else if hay[..|needle|] == needle then Some(0)
    else
      match Find(hay[1..], needle)
      case None =>
        assert forall j: nat :: OccursAt(hay, needle, j) && j > 0 ==> OccursAt(hay[1..], needle, j - 1);
        None
      case Some(k) =>
        assert OccursAt(hay, needle, k + 1) by {
          assert hay[k + 1..k + 1 + |needle|] == hay[1..][k..k + |needle|];
        }
        assert forall j: nat :: OccursAt(hay, needle, j) && 0 < j ==> OccursAt(hay[1..], needle, j - 1);
        Some(k + 1)
  }

  /** A one-character needle's first occurrence is the first index holding it */
  lemma FindChar(hay: string, c: char, k: nat)
    requires k < |hay| && hay[k] == c
    requires forall j :: 0 <= j < k ==> hay[j] != c
    ensures Find(hay, [c]) == Some(k)
  {
    assert OccursAt(hay, [c], k);
    forall j: nat | j < k ensures !OccursAt(hay, [c], j) {
      assert hay[j..j + 1][0] == hay[j];
    }
  }

  lemma FindCharAbsent(hay: string, c: char)
    requires c !in hay
    ensures Find(hay, [c]) == None
  {
    forall j: nat | j + 1 <= |hay| ensures !OccursAt(hay, [c], j) {
      assert hay[j..j + 1][0] == hay[j];
    }
  }

  /** explode($sep, $s) for a non-empty separator (PHP refuses an empty one) */
  function Explode(sep: string, s: string): (r: seq<string>)
    requires sep != []
    ensures |r| >= 1
    decreases |s|
  {
    match Find(s, sep)
    case None => [s]
    case Some(i) => [s[..i]] + Explode(sep, s[i + |sep|..])
  }

  /** implode($sep, $parts) */
  function Implode(sep: string, parts: seq<string>): string
  {
    if parts == [] then ""
    else if |parts| == 1 then parts[0]
    else parts[0] + sep + Implode(sep, parts[1..])
  }

  /** Joining the pieces of an explode with its separator restores the string */
  lemma {:induction false} ImplodeExplode(sep: string, s: string)
    requires sep != []
    ensures Implode(sep, Explode(sep, s)) == s
    decreases |s|
  {
    match Find(s, sep)
    case None =>
    case Some(i) =>
      assert OccursAt(s, sep, i);
      var rest := s[i + |sep|..];
      var parts := Explode(sep, s);
      assert parts == [s[..i]] + Explode(sep, rest);
      ImplodeExplode(sep, rest);
      assert parts[1..] == Explode(sep, rest);
      assert Implode(sep, parts) == s[..i] + sep + rest;
      assert s == s[..i] + s[i..i + |sep|] + rest;
  }

  /** Splitting a join at a one-character separator that no piece contains
      gives back the pieces */
  lemma {:induction false} ExplodeImplode(c: char, parts: seq<string>)
    requires parts != []
    requires forall k :: 0 <= k < |parts| ==> c !in parts[k]
    ensures Explode([c], Implode([c], parts)) == parts
  {
    if |parts| == 1 {
      FindCharAbsent(parts[0], c);
    } else {
      var tail := Implode([c], parts[1..]);
      var s := parts[0] + [c] + tail;
      assert Implode([c], parts) == s;
      forall j | 0 <= j < |parts[0]| ensures s[j] != c {
        assert s[j] == parts[0][j];
      }
      FindChar(s, c, |parts[0]|);
      assert s[..|parts[0]|] == parts[0];
      assert s[|parts[0]| + 1..] == tail;
      ExplodeImplode(c, parts[1..]);
      assert [parts[0]] + parts[1..] == parts;
    }
  }

  /** The text after the last separator (the whole string if there is none) */
  function LastSegment(sep: string, s: string): (r: string)
    requires sep != []
  {
    var parts := Explode(sep, s);
    parts[|parts| - 1]
  }
}

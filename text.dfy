/** The string operations the source performs through JavaScript's built-ins:
    `toLowerCase`, `toUpperCase`, `normalize("NFD")` followed by removal of the
    combining marks U+0300..U+036F, `trim`, `startsWith`, the default string
    comparison used by `Array.prototype.sort`, and `Number.prototype.toString`. */
module Text {

  // ---------------------------------------------------------------------------
  // Case mapping (Basic Latin and Latin-1 Supplement)
  // ---------------------------------------------------------------------------

  function LowerChar(c: char): char {
    if 'A' <= c <= 'Z' || ('À' <= c <= 'Þ' && c != '×') then
      (c as int + 32) as char
    else if c == '\U{178}' then 'ÿ'
    else c
  }

  function UpperChar(c: char): char {
    if 'a' <= c <= 'z' || ('à' <= c <= 'þ' && c != '÷') then
      (c as int - 32) as char
    else if c == 'ÿ' then '\U{178}'
    else c
  }

  /** `s.toLowerCase()` */
  function Lower(s: string): (r: string)
    ensures |r| == |s|
  {
    seq(|s|, i requires 0 <= i < |s| => LowerChar(s[i]))
  }

  /** `s.toUpperCase()` */
  function Upper(s: string): (r: string)
    ensures |r| == |s|
  {
    seq(|s|, i requires 0 <= i < |s| => UpperChar(s[i]))
  }

  /** Lower-casing is idempotent, and the two case mappings undo each other
      up to case: a text compares the same whichever way it was cased. */
  lemma CaseFolding(s: string)
    ensures Lower(Lower(s)) == Lower(s) && Upper(Upper(s)) == Upper(s)
    ensures Lower(Upper(s)) == Lower(s) && Upper(Lower(s)) == Upper(s)
  {
    assert forall i :: 0 <= i < |s| ==> LowerChar(UpperChar(s[i])) == LowerChar(s[i]);
    assert forall i :: 0 <= i < |s| ==> UpperChar(LowerChar(s[i])) == UpperChar(s[i]);
  }

  // ---------------------------------------------------------------------------
  // Canonical decomposition (NFD) and removal of combining marks
  // ---------------------------------------------------------------------------

  /** The combining diacritical marks block, U+0300..U+036F. */
  predicate IsCombiningMark(c: char) {
    '\U{300}' <= c <= '\U{36F}'
  }

  /** The precomposed lower-case letters of Latin-1 (U+00E0..U+00FF except
      æ, ð, ÷, ø and þ, which have no canonical decomposition). */
  predicate IsPrecomposed(c: char) {
    'à' <= c <= 'ÿ' && c != 'æ' && c != 'ð' && c != '÷' && c != 'ø' && c != 'þ'
  }

  /** The base letter of a precomposed letter. */
  function BaseLetter(c: char): (b: char)
    requires IsPrecomposed(c)
    ensures 'a' <= b <= 'z'
  {
    if c <= 'å' then 'a'
    else if c == 'ç' then 'c'
    else if c <= 'ë' then 'e'
    else if c <= 'ï' then 'i'
    else if c == 'ñ' then 'n'
    else if c <= 'ö' then 'o'
    else if c <= 'ü' then 'u'
    else 'y'
  }

  /** The combining mark of a precomposed letter: grave, acute, circumflex,
      tilde, diaeresis, ring above or cedilla. */
  function CombiningMark(c: char): (m: char)
    requires IsPrecomposed(c)
    ensures IsCombiningMark(m)
  {
    if c in "àèìòù" then '\U{300}'
    else if c in "áéíóúý" then '\U{301}'
    else if c in "âêîôû" then '\U{302}'
    else if c in "ãñõ" then '\U{303}'
    else if c == 'å' then '\U{30A}'
    else if c == 'ç' then '\U{327}'
    else '\U{308}'
  }

  function Decompose(c: char): (r: string)
    ensures !IsPrecomposed(c) ==> r == [c]
  {
    if IsPrecomposed(c) then [BaseLetter(c), CombiningMark(c)] else [c]
  }

  /** `s.normalize("NFD")` */
  function Nfd(s: string): string {
    if s == [] then [] else Decompose(s[0]) + Nfd(s[1..])
  }

  /** `s.replace(/[\u0300-\u036f]/g, "")` */
  function StripMarks(s: string): (r: string)
    ensures |r| <= |s|
    ensures forall c :: c in r ==> c in s && !IsCombiningMark(c)
    ensures (forall i :: 0 <= i < |s| ==> !IsCombiningMark(s[i])) ==> r == s
  {
    if s == [] then []
    else if IsCombiningMark(s[0]) then StripMarks(s[1..])
    else [s[0]] + StripMarks(s[1..])
  }

  /** Removing the marks of a text is removing them piece by piece: with
      the removal of a single mark and the identity on mark-free text this
      says the result is the text with exactly its marks taken out, the
      rest in order. */
  lemma {:induction false} StripMarksConcat(a: string, b: string)
    ensures StripMarks(a + b) == StripMarks(a) + StripMarks(b)
  {
    if a == [] {
      assert a + b == b;
    } else {
      assert (a + b)[0] == a[0] && (a + b)[1..] == a[1..] + b;
      StripMarksConcat(a[1..], b);
    }
  }

  /** A decomposed precomposed letter loses its accent and keeps its base
      letter. */
  lemma StripMarksOfDecompose(c: char)
    requires IsPrecomposed(c)
    ensures StripMarks(Decompose(c)) == [BaseLetter(c)]
  {
    var d := Decompose(c);
    assert d[1..][0] == CombiningMark(c) && d[1..][1..] == [];
  }

  // ---------------------------------------------------------------------------
  // trim
  // ---------------------------------------------------------------------------

  /** The characters `String.prototype.trim` removes: white space and line
      terminators of ECMAScript. */
  predicate IsJsSpace(c: char) {
    c == '\t' || c == '\n' || c == '\U{B}' || c == '\U{C}' || c == '\r' || c == ' '
    || c == '\U{A0}' || c == '\U{1680}' || ('\U{2000}' <= c <= '\U{200A}')
    || c == '\U{2028}' || c == '\U{2029}' || c == '\U{202F}' || c == '\U{205F}'
    || c == '\U{3000}' || c == '\U{FEFF}'
  }

  function TrimStart(s: string): string {
    if s != [] && IsJsSpace(s[0]) then TrimStart(s[1..]) else s
  }

  function TrimEnd(s: string): string {
    if s != [] && IsJsSpace(s[|s| - 1]) then TrimEnd(s[..|s| - 1]) else s
  }

  /** `trimStart` removes exactly the leading white space. */
  lemma {:induction false} TrimStartSpec(s: string)
    ensures var r := TrimStart(s);
      && |r| <= |s| && r == s[|s| - |r|..]
      && (r == [] || !IsJsSpace(r[0]))
      && (forall i :: 0 <= i < |s| - |r| ==> IsJsSpace(s[i]))
  {
    if s != [] && IsJsSpace(s[0]) {
      TrimStartSpec(s[1..]);
    }
  }

  /** `trimEnd` removes exactly the trailing white space. */
  lemma {:induction false} TrimEndSpec(s: string)
    ensures var r := TrimEnd(s);
      && |r| <= |s| && r == s[..|r|]
      && (r == [] || !IsJsSpace(r[|r| - 1]))
      && (forall i :: |r| <= i < |s| ==> IsJsSpace(s[i]))
  {
    if s != [] && IsJsSpace(s[|s| - 1]) {
      TrimEndSpec(s[..|s| - 1]);
    }
  }

  predicate IsTrimmed(s: string) {
    s == [] || (!IsJsSpace(s[0]) && !IsJsSpace(s[|s| - 1]))
  }

  /** `s.trim()`: the longest slice of `s` that neither starts nor ends
      with white space. */
  function Trim(s: string): (r: string)
    ensures IsTrimmed(r)
    ensures forall c :: c in r ==> c in s
  {
    TrimStartSpec(s);
    TrimEndSpec(TrimStart(s));
    TrimEnd(TrimStart(s))
  }

  lemma TrimKeepsTrimmed(s: string)
    requires IsTrimmed(s)
    ensures Trim(s) == s
  {
  }

  lemma TrimIgnoresSurroundingSpace(s: string, c: char)
    requires IsJsSpace(c)
    ensures Trim([c] + s) == Trim(s)
    ensures Trim(s + [c]) == Trim(s)
  {
    TrimIgnoresLeadingSpace(s, c);
    TrimIgnoresTrailingSpace(s, c);
  }

  lemma TrimIgnoresLeadingSpace(s: string, c: char)
    requires IsJsSpace(c)
    ensures Trim([c] + s) == Trim(s)
  {
    assert ([c] + s)[0] == c && ([c] + s)[1..] == s;
    assert TrimStart([c] + s) == TrimStart(s);
  }

  lemma TrimIgnoresTrailingSpace(s: string, c: char)
    requires IsJsSpace(c)
    ensures Trim(s + [c]) == Trim(s)
  {
    TrimStartSpec(s);
    var t := TrimStart(s);
    if t == [] {
      assert forall i :: 0 <= i < |s + [c]| ==> IsJsSpace((s + [c])[i]);
      TrimStartAllSpace(s + [c]);
    } else {
      TrimStartAppend(s, c);
      var u := t + [c];
      assert u[|u| - 1] == c && u[..|u| - 1] == t;
      assert TrimEnd(u) == TrimEnd(t);
    }
  }

  lemma {:induction false} TrimStartAllSpace(s: string)
    requires forall i :: 0 <= i < |s| ==> IsJsSpace(s[i])
    ensures TrimStart(s) == []
  {
    if s != [] {
      TrimStartAllSpace(s[1..]);
    }
  }

  lemma {:induction false} TrimStartAppend(s: string, c: char)
    requires TrimStart(s) != []
    ensures TrimStart(s + [c]) == TrimStart(s) + [c]
  {
    if IsJsSpace(s[0]) {
      assert (s + [c])[1..] == s[1..] + [c];
      TrimStartAppend(s[1..], c);
    }
  }

  // ---------------------------------------------------------------------------
  // norm
  // ---------------------------------------------------------------------------

  /** The text normalisation the source applies before every comparison with
      an option label: lower-case, decompose, drop combining marks, trim. */
  function Norm(s: string): (r: string)
    ensures IsTrimmed(r)
    ensures forall c :: c in r ==> IsNormalChar(c)
  {
    NfdOfLowerIsLowerOrMark(Lower(s));
    Trim(StripMarks(Nfd(Lower(s))))
  }

  /** A character that normalisation leaves alone. */
  predicate IsNormalChar(c: char) {
    LowerChar(c) == c && !IsPrecomposed(c) && !IsCombiningMark(c)
  }

  lemma {:induction false} NfdOfLowerIsLowerOrMark(s: string)
    requires forall i :: 0 <= i < |s| ==> LowerChar(s[i]) == s[i]
    ensures forall c :: c in Nfd(s) ==> IsNormalChar(c) || IsCombiningMark(c)
  {
    if s != [] {
      NfdOfLowerIsLowerOrMark(s[1..]);
      assert Nfd(s) == Decompose(s[0]) + Nfd(s[1..]);
    }
  }

  lemma {:induction false} NfdOfNormal(s: string)
    requires forall c :: c in s ==> IsNormalChar(c)
    ensures Nfd(s) == s
  {
    if s != [] {
      assert s[0] in s;
      NfdOfNormal(s[1..]);
      assert s == [s[0]] + s[1..];
    }
  }

  lemma {:induction false} StripMarksOfNormal(s: string)
    requires forall c :: c in s ==> IsNormalChar(c)
    ensures StripMarks(s) == s
  {
    if s != [] {
      assert s[0] in s;
      StripMarksOfNormal(s[1..]);
      assert s == [s[0]] + s[1..];
    }
  }

  /** Normalising twice is normalising once: a normalised value compares
      equal to the literal it was matched against however often it is
      normalised again. */
  lemma NormIdempotent(s: string)
    ensures Norm(Norm(s)) == Norm(s)
  {
    var n := Norm(s);
    assert Lower(n) == n by {
      assert forall i :: 0 <= i < |n| ==> n[i] in n;
    }
    NfdOfNormal(n);
    StripMarksOfNormal(n);
    TrimKeepsTrimmed(n);
    calc {
      Norm(n);
      Trim(StripMarks(Nfd(Lower(n))));
      Trim(StripMarks(Nfd(n)));
      Trim(StripMarks(n));
      Trim(n);
      n;
    }
  }

  /** Normalisation ignores letter case. */
  lemma NormIgnoresCase(s: string)
    ensures Norm(Lower(s)) == Norm(s)
  {
    assert Lower(Lower(s)) == Lower(s);
  }

  /** Normalisation ignores white space added at either end. */
  lemma NormIgnoresSurroundingSpace(s: string, c: char)
    requires IsJsSpace(c)
    ensures Norm([c] + s) == Norm(s)
    ensures Norm(s + [c]) == Norm(s)
  {
    var m := StripMarks(Nfd(Lower(s)));
    assert Lower([c] + s) == [c] + Lower(s);
    assert Lower(s + [c]) == Lower(s) + [c];
    assert Nfd([c] + Lower(s)) == [c] + Nfd(Lower(s));
    NfdAppendChar(Lower(s), c);
    assert StripMarks([c] + Nfd(Lower(s))) == [c] + m;
    StripMarksAppendChar(Nfd(Lower(s)), c);
    TrimIgnoresSurroundingSpace(m, c);
  }

  lemma {:induction false} NfdAppendChar(s: string, c: char)
    requires !IsPrecomposed(c)
    ensures Nfd(s + [c]) == Nfd(s) + [c]
  {
    if s != [] {
      assert (s + [c])[1..] == s[1..] + [c];
      NfdAppendChar(s[1..], c);
    }
  }

  lemma {:induction false} StripMarksAppendChar(s: string, c: char)
    requires !IsCombiningMark(c)
    ensures StripMarks(s + [c]) == StripMarks(s) + [c]
  {
    if s != [] {
      assert (s + [c])[1..] == s[1..] + [c];
      StripMarksAppendChar(s[1..], c);
    }
  }

  /** What normalisation does to one character that is not a mark: the
      lower-case letter, without its accent. */
  function FoldChar(c: char): (f: char)
    ensures IsPrecomposed(LowerChar(c)) ==> 'a' <= f <= 'z'
  {
    var l := LowerChar(c);
    if IsPrecomposed(l) then BaseLetter(l) else l
  }

  function Fold(s: string): string {
    seq(|s|, i requires 0 <= i < |s| => FoldChar(s[i]))
  }

  /** The accent folding: on text without combining marks, normalisation
      is trimming the text with every letter replaced by its lower-case
      base letter. */
  lemma NormFolds(s: string)
    requires forall i :: 0 <= i < |s| ==> !IsCombiningMark(s[i])
    ensures Norm(s) == Trim(Fold(s))
  {
    StripMarksOfLowerNfd(s);
  }

  lemma {:induction false} StripMarksOfLowerNfd(s: string)
    requires forall i :: 0 <= i < |s| ==> !IsCombiningMark(s[i])
    ensures StripMarks(Nfd(Lower(s))) == Fold(s)
  {
    if s != [] {
      var l := LowerChar(s[0]);
      NfdFoldCons(s);
      StripMarksConcat(Decompose(l), Nfd(Lower(s[1..])));
      FoldOneChar(s[0]);
      StripMarksOfLowerNfd(s[1..]);
    }
  }

  lemma NfdFoldCons(s: string)
    requires s != []
    ensures Nfd(Lower(s)) == Decompose(LowerChar(s[0])) + Nfd(Lower(s[1..]))
    ensures Fold(s) == [FoldChar(s[0])] + Fold(s[1..])
  {
    assert Lower(s) == [LowerChar(s[0])] + Lower(s[1..]);
  }

  lemma FoldOneChar(c: char)
    requires !IsCombiningMark(c)
    ensures StripMarks(Decompose(LowerChar(c))) == [FoldChar(c)]
  {
    var l := LowerChar(c);
    if IsPrecomposed(l) {
      StripMarksOfDecompose(l);
    } else {
      assert StripMarks([l]) == [l];
    }
  }

  /** "Camión" reads as "camion". */
  lemma NormCamion()
    ensures Norm("Camión") == "camion"
  {
    var s := "Camión";
    assert BaseLetter('ó') == 'o';
    var f := Fold(s);
    assert f[0] == 'c' && f[1] == 'a' && f[2] == 'm' && f[3] == 'i' && f[4] == 'o' && f[5] == 'n';
    assert f == "camion";
    assert IsTrimmed(f);
    TrimKeepsTrimmed(f);
    assert forall i :: 0 <= i < |s| ==> !IsCombiningMark(s[i]);
    NormFolds(s);
  }

  // ---------------------------------------------------------------------------
  // startsWith
  // ---------------------------------------------------------------------------

  /** `s.startsWith(p)` */
  predicate StartsWith(s: string, p: string) {
    |p| <= |s| && s[..|p|] == p
  }

  // ---------------------------------------------------------------------------
  // Default sort order of strings
  // ---------------------------------------------------------------------------

  /** `a < b` on strings: lexicographic order of characters, a proper prefix
      coming first. */
  predicate Less(a: string, b: string) {
    if a == [] then b != []
    else if b == [] then false
    else if a[0] != b[0] then a[0] < b[0]
    else Less(a[1..], b[1..])
  }

  lemma {:induction false} LessIrreflexive(a: string)
    ensures !Less(a, a)
  {
    if a != [] {
      LessIrreflexive(a[1..]);
    }
  }

  lemma {:induction false} LessTransitive(a: string, b: string, c: string)
    requires Less(a, b) && Less(b, c)
    ensures Less(a, c)
  {
    if a != [] && b != [] && c != [] && a[0] == b[0] && b[0] == c[0] {
      LessTransitive(a[1..], b[1..], c[1..]);
    }
  }

  lemma {:induction false} LessTotal(a: string, b: string)
    requires a != b
    ensures Less(a, b) || Less(b, a)
  {
    if a != [] && b != [] && a[0] == b[0] {
      assert a == [a[0]] + a[1..] && b == [b[0]] + b[1..];
      LessTotal(a[1..], b[1..]);
    }
  }

  lemma {:induction false} LessAsymmetric(a: string, b: string)
    requires Less(a, b)
    ensures !Less(b, a)
  {
    if a != [] && b != [] && a[0] == b[0] {
      LessAsymmetric(a[1..], b[1..]);
    }
  }

  predicate StrictlySorted(s: seq<string>) {
    forall i, j :: 0 <= i < j < |s| ==> Less(s[i], s[j])
  }

  predicate NoDuplicates(s: seq<string>) {
    forall i, j :: 0 <= i < j < |s| ==> s[i] != s[j]
  }

  function InsertSorted(x: string, s: seq<string>): (r: seq<string>)
    requires StrictlySorted(s) && x !in s
    ensures StrictlySorted(r) && |r| == |s| + 1
    ensures forall y :: y in r <==> y == x || y in s
  {
    if s == [] then [x]
    else if Less(x, s[0]) then
      assert forall j :: 0 <= j < |s| ==> Less(x, s[j]) by {
        forall j | 0 <= j < |s| ensures Less(x, s[j]) {
          if j > 0 { LessTransitive(x, s[0], s[j]); }
        }
      }
      [x] + s
    else
      assert Less(s[0], x) by { LessTotal(x, s[0]); }
      var rest := InsertSorted(x, s[1..]);
      assert forall y :: y in s[1..] ==> Less(s[0], y);
      [s[0]] + rest
  }

  /** `Array.prototype.sort()` on strings that are pairwise different: the
      same strings in strictly ascending order. */
  function SortStrings(a: seq<string>): (r: seq<string>)
    requires NoDuplicates(a)
    ensures StrictlySorted(r) && |r| == |a|
    ensures forall y :: y in r <==> y in a
  {
    if a == [] then []
    else
      assert a[0] !in a[1..];
      InsertSorted(a[0], SortStrings(a[1..]))
  }

  // ---------------------------------------------------------------------------
  // Number to decimal text
  // ---------------------------------------------------------------------------

  function DigitChar(d: nat): (c: char)
    requires d < 10
    ensures '0' <= c <= '9'
  {
    ('0' as int + d) as char
  }

  /** The number a run of decimal digits stands for. */
  function DigitsValue(s: string): nat
    requires forall i :: 0 <= i < |s| ==> '0' <= s[i] <= '9'
  {
    if s == [] then 0
    else DigitsValue(s[..|s| - 1]) * 10 + (s[|s| - 1] as int - '0' as int)
  }

  /** The decimal digits of `n`, most significant first. */
  function Digits(n: nat): (r: string)
    ensures 1 <= |r| && ('1' <= r[0] <= '9' || r == "0")
    ensures forall i :: 0 <= i < |r| ==> '0' <= r[i] <= '9'
    ensures DigitsValue(r) == n
  {
    if n < 10 then [DigitChar(n)]
    else
      var r := Digits(n / 10) + [DigitChar(n % 10)];
      assert r[..|r| - 1] == Digits(n / 10);
      r
  }

  /** `n.toString()` for an integer `n`. */
  function DecimalString(n: int): string {
    if n < 0 then "-" + Digits(-n) else Digits(n)
  }

  /** Different numbers print differently. */
  lemma DecimalStringInjective(m: int, n: int)
    requires DecimalString(m) == DecimalString(n)
    ensures m == n
  {
    if m < 0 && n < 0 {
      assert DecimalString(m)[1..] == Digits(-m);
      assert DecimalString(n)[1..] == Digits(-n);
    }
  }
}

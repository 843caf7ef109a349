/**
 * Answer similarity: text normalisation, the Levenshtein edit distance and
 * the fuzzy score of a typed answer against the expected one
 * (src/utils/cognitive/fuzzyMatch.ts).
 */
module FuzzyMatch {

  // ---------------------------------------------------------------------
  // Character classes
  // ---------------------------------------------------------------------

  /** The regular-expression class `\w` (without the unicode flag): ASCII letters, digits and `_`. */
  predicate IsWordChar(c: char) {
    ('a' <= c <= 'z') || ('A' <= c <= 'Z') || ('0' <= c <= '9') || c == '_'
  }

  /** The regular-expression class `\s`, which is also the set `trim` removes. */
  predicate IsSpaceChar(c: char) {
    c == ' ' || c == '\t' || c == '\n' || c == '\r' || c == '\U{000B}' || c == '\U{000C}'
    || c == '\U{00A0}' || c == '\U{1680}' || ('\U{2000}' <= c <= '\U{200A}')
    || c == '\U{2028}' || c == '\U{2029}' || c == '\U{202F}' || c == '\U{205F}'
    || c == '\U{3000}' || c == '\U{FEFF}'
  }

  predicate IsUpper(c: char) { 'A' <= c <= 'Z' }

  /** A character that may appear in normalised text other than the space. */
  predicate IsLowerWordChar(c: char) { IsWordChar(c) && !IsUpper(c) }

  /** `toLowerCase` on one character (ASCII letters only; see README). */
  function ToLower(c: char): (d: char)
    ensures !IsUpper(d)
    ensures IsWordChar(c) <==> IsWordChar(d)
    ensures IsSpaceChar(c) <==> IsSpaceChar(d)
    ensures !IsUpper(c) ==> d == c
  {
    if IsUpper(c) then (c as int + 32) as char else c
  }

  // ---------------------------------------------------------------------
  // normalizeString
  // ---------------------------------------------------------------------

  function Lower(s: string): (r: string)
    ensures |r| == |s|
    ensures forall i :: 0 <= i < |s| ==> r[i] == ToLower(s[i])
  {
    seq(|s|, i requires 0 <= i < |s| => ToLower(s[i]))
  }

  /** `replace(/[^\w\s\d]/gi, "")`: keeps word and whitespace characters, in order. */
  function StripPunctuation(s: string): (r: string)
    ensures |r| <= |s|
    ensures forall c :: c in r ==> c in s && (IsWordChar(c) || IsSpaceChar(c))
  {
    if |s| == 0 then []
    else if IsWordChar(s[0]) || IsSpaceChar(s[0]) then [s[0]] + StripPunctuation(s[1..])
    else StripPunctuation(s[1..])
  }

  /** Removes the leading run of whitespace; also `trimStart`. */
  function DropLeadingSpaces(s: string): (r: string)
    ensures |r| <= |s| && r == s[|s| - |r|..]
    ensures forall i :: 0 <= i < |s| - |r| ==> IsSpaceChar(s[i])
    ensures |r| > 0 ==> !IsSpaceChar(r[0])
  {
    if |s| > 0 && IsSpaceChar(s[0]) then DropLeadingSpaces(s[1..]) else s
  }

  /** `trimEnd`: removes the trailing run of whitespace. */
  function DropTrailingSpaces(s: string): (r: string)
    ensures |r| <= |s| && r == s[..|r|]
    ensures forall i :: |r| <= i < |s| ==> IsSpaceChar(s[i])
    ensures |r| > 0 ==> !IsSpaceChar(r[|r| - 1])
  {
    if |s| > 0 && IsSpaceChar(s[|s| - 1]) then DropTrailingSpaces(s[..|s| - 1]) else s
  }

  /** `replace(/\s+/g, " ")`: every maximal whitespace run becomes one ' '. */
  function CollapseSpaces(s: string): (r: string)
    ensures |r| == 0 <==> |s| == 0
    ensures |s| > 0 ==> (IsSpaceChar(r[0]) <==> IsSpaceChar(s[0]))
    ensures forall i :: 0 <= i < |r| ==> r[i] == ' ' || (!IsSpaceChar(r[i]) && r[i] in s)
    ensures forall i :: 0 <= i < |r| - 1 ==> !(IsSpaceChar(r[i]) && IsSpaceChar(r[i + 1]))
    decreases |s|
  {
    if |s| == 0 then []
    else if IsSpaceChar(s[0]) then [' '] + CollapseSpaces(DropLeadingSpaces(s[1..]))
    else [s[0]] + CollapseSpaces(s[1..])
  }

  function Trim(s: string): string {
    DropTrailingSpaces(DropLeadingSpaces(s))
  }

  /**
   * The shape of every normalised string: lower-case word characters and
   * single spaces, no space at either end and no two spaces in a row.
   */
  predicate IsNormalized(t: string) {
    && (forall i :: 0 <= i < |t| ==> IsLowerWordChar(t[i]) || t[i] == ' ')
    && (|t| > 0 ==> t[0] != ' ' && t[|t| - 1] != ' ')
    && (forall i :: 0 <= i < |t| - 1 ==> !(t[i] == ' ' && t[i + 1] == ' '))
  }

  /** normalizeString: lower-case, strip punctuation, collapse whitespace, trim. */
  function Normalize(s: string): (r: string)
    ensures IsNormalized(r)
    ensures |r| <= |s|
  {
    var lowered := Lower(s);
    var stripped := StripPunctuation(lowered);
    var collapsed := CollapseSpaces(stripped);
    var trimmed := Trim(collapsed);
    NormalizedShape(lowered, stripped, collapsed);
    CollapseLength(stripped);
    trimmed
  }

  /** Character classes and spacing of collapsed text, before the ends are trimmed. */
  predicate IsCollapsedText(c: string) {
    && (forall i :: 0 <= i < |c| ==> IsLowerWordChar(c[i]) || c[i] == ' ')
    && (forall i :: 0 <= i < |c| - 1 ==> !(c[i] == ' ' && c[i + 1] == ' '))
  }

  lemma NormalizedShape(lowered: string, stripped: string, collapsed: string)
    requires forall i :: 0 <= i < |lowered| ==> !IsUpper(lowered[i])
    requires stripped == StripPunctuation(lowered)
    requires collapsed == CollapseSpaces(stripped)
    ensures IsNormalized(Trim(collapsed))
  {
    forall i | 0 <= i < |collapsed|
      ensures IsLowerWordChar(collapsed[i]) || collapsed[i] == ' '
    {
      if collapsed[i] != ' ' {
        assert collapsed[i] in stripped;
        assert collapsed[i] in lowered;
      }
    }
    forall i | 0 <= i < |collapsed| - 1
      ensures !(collapsed[i] == ' ' && collapsed[i + 1] == ' ')
    {
      assert !(IsSpaceChar(collapsed[i]) && IsSpaceChar(collapsed[i + 1]));
    }
    TrimKeepsCollapsed(collapsed);
  }

  lemma TrimKeepsCollapsed(c: string)
    requires IsCollapsedText(c)
    ensures IsNormalized(Trim(c))
  {
    var front := DropLeadingSpaces(c);
    var t := DropTrailingSpaces(front);
    var k := |c| - |front|;
    assert front == c[k..];
    assert t == front[..|t|];
    forall i | 0 <= i < |t|
      ensures t[i] == c[k + i]
    {
      assert t[i] == front[i];
    }
  }

  lemma CollapseLength(s: string)
    ensures |CollapseSpaces(s)| <= |s|
    decreases |s|
  {
    if |s| > 0 {
      if IsSpaceChar(s[0]) {
        CollapseLength(DropLeadingSpaces(s[1..]));
      } else {
        CollapseLength(s[1..]);
      }
    }
  }

  /**
   * Stripping works character by character: it distributes over
   * concatenation, and a single character is kept exactly when it is a
   * word or whitespace character. Together the two fix the result: every
   * word and whitespace character of the input survives, in order, and
   * nothing else does.
   */
  lemma {:induction false} StripPunctuationAppend(a: string, b: string)
    ensures StripPunctuation(a + b) == StripPunctuation(a) + StripPunctuation(b)
    ensures |a| == 1 ==> StripPunctuation(a) == (if IsWordChar(a[0]) || IsSpaceChar(a[0]) then a else [])
    decreases |a|
  {
    if |a| > 0 {
      assert (a + b)[0] == a[0];
      assert (a + b)[1..] == a[1..] + b;
      StripPunctuationAppend(a[1..], b);
      if |a| == 1 {
        assert a[1..] == [];
      }
    } else {
      assert a + b == b;
    }
  }

  /** Whether a string ends in whitespace. */
  predicate EndsInSpace(s: string) {
    |s| > 0 && IsSpaceChar(s[|s| - 1])
  }

  /** Appending one character moves the end of the leading-whitespace cut only when everything before was whitespace. */
  lemma {:induction false} DropLeadingSnoc(t: string, c: char)
    ensures |DropLeadingSpaces(t)| > 0 ==> DropLeadingSpaces(t + [c]) == DropLeadingSpaces(t) + [c]
    ensures |DropLeadingSpaces(t)| == 0 ==> DropLeadingSpaces(t + [c]) == (if IsSpaceChar(c) then [] else [c])
    decreases |t|
  {
    if |t| > 0 {
      assert (t + [c])[0] == t[0];
      assert (t + [c])[1..] == t[1..] + [c];
      if IsSpaceChar(t[0]) {
        DropLeadingSnoc(t[1..], c);
      }
    } else {
      assert t + [c] == [c];
      assert [c][1..] == [];
    }
  }

  /** A single character collapses to itself, or to ' ' when it is whitespace. */
  lemma CollapseOne(c: char)
    ensures CollapseSpaces([c]) == if IsSpaceChar(c) then [' '] else [c]
  {
    assert [c][1..] == [];
  }

  /**
   * One step of collapsing read from left to right, given the output so
   * far, the input so far and the next character: a non-space character is
   * copied, and a whitespace character adds one ' ' unless it continues a run.
   */
  function CollapseStep(out: string, seen: string, c: char): string {
    if !IsSpaceChar(c) then out + [c] else if EndsInSpace(seen) then out else out + [' ']
  }

  /** A step after a common first output character is the step on the rest. */
  lemma CollapseStepCons(x: char, out: string, seen: string, seen': string, c: char)
    requires EndsInSpace(seen) == EndsInSpace(seen')
    ensures CollapseStep([x] + out, seen, c) == [x] + CollapseStep(out, seen', c)
  {
    assert [x] + out + [c] == [x] + (out + [c]);
    assert [x] + out + [' '] == [x] + (out + [' ']);
  }

  /** Dropping the first character of a one-character prefix gives back the rest. */
  lemma ConsTail(x: char, r: string)
    ensures ([x] + r)[0] == x && ([x] + r)[1..] == r
  {
  }

  /** Appending after a non-empty string keeps its first character and appends to its tail. */
  lemma SnocTail(s: string, c: char)
    requires |s| > 0
    ensures (s + [c])[0] == s[0] && (s + [c])[1..] == s[1..] + [c]
  {
  }

  /** The scan step after a string made only of whitespace. */
  lemma CollapseSnocAllSpace(s: string, c: char)
    requires |s| > 0 && IsSpaceChar(s[0]) && |DropLeadingSpaces(s[1..])| == 0
    ensures CollapseSpaces(s + [c]) == CollapseStep(CollapseSpaces(s), s, c)
  {
    if |s| > 1 {
      assert IsSpaceChar(s[1..][|s| - 2]);
    }
    assert DropLeadingSpaces(s[1..]) == [];
    assert CollapseSpaces(s) == [' '];
    var t := s + [c];
    SnocTail(s, c);
    DropLeadingSnoc(s[1..], c);
    CollapseOne(c);
  }

  /** The scan step after a string that starts with whitespace, given the step for the rest past the run. */
  lemma CollapseSnocSpaceHead(s: string, c: char)
    requires |s| > 0 && IsSpaceChar(s[0])
    requires var u := DropLeadingSpaces(s[1..]);
      |u| > 0 && CollapseSpaces(u + [c]) == CollapseStep(CollapseSpaces(u), u, c)
    ensures CollapseSpaces(s + [c]) == CollapseStep(CollapseSpaces(s), s, c)
  {
    var u := DropLeadingSpaces(s[1..]);
    var t := s + [c];
    SnocTail(s, c);
    DropLeadingSnoc(s[1..], c);
    assert CollapseSpaces(t) == [' '] + CollapseSpaces(u + [c]);
    assert u[|u| - 1] == s[|s| - 1];
    CollapseStepCons(' ', CollapseSpaces(u), s, u, c);
  }

  /** The scan step after a string that starts with a non-space character, given the step for its tail. */
  lemma CollapseSnocWordHead(s: string, c: char)
    requires |s| > 0 && !IsSpaceChar(s[0])
    requires CollapseSpaces(s[1..] + [c]) == CollapseStep(CollapseSpaces(s[1..]), s[1..], c)
    ensures CollapseSpaces(s + [c]) == CollapseStep(CollapseSpaces(s), s, c)
  {
    var t := s + [c];
    SnocTail(s, c);
    assert CollapseSpaces(t) == [s[0]] + CollapseSpaces(s[1..] + [c]);
    assert EndsInSpace(s[1..]) == EndsInSpace(s);
    CollapseStepCons(s[0], CollapseSpaces(s[1..]), s, s[1..], c);
  }

  /**
   * CollapseSpaces, defined from the front, agrees with the left-to-right
   * scan. With CollapseSpaces("") == "" this determines the result: the
   * non-space characters survive in order, and each maximal whitespace run
   * becomes exactly one ' '.
   */
  lemma {:induction false} CollapseSpacesSnoc(s: string, c: char)
    ensures CollapseSpaces(s + [c]) == CollapseStep(CollapseSpaces(s), s, c)
    decreases |s|
  {
    if |s| == 0 {
      assert s + [c] == [c];
      CollapseOne(c);
    } else if IsSpaceChar(s[0]) {
      var u := DropLeadingSpaces(s[1..]);
      if |u| > 0 {
        CollapseSpacesSnoc(u, c);
        CollapseSnocSpaceHead(s, c);
      } else {
        CollapseSnocAllSpace(s, c);
      }
    } else {
      CollapseSpacesSnoc(s[1..], c);
      CollapseSnocWordHead(s, c);
    }
  }

  // ---------------------------------------------------------------------
  // Idempotence and content of normalizeString
  // ---------------------------------------------------------------------

  lemma LowerFixes(t: string)
    requires forall i :: 0 <= i < |t| ==> !IsUpper(t[i])
    ensures Lower(t) == t
  {
  }

  lemma {:induction false} StripFixes(t: string)
    requires forall i :: 0 <= i < |t| ==> IsWordChar(t[i]) || IsSpaceChar(t[i])
    ensures StripPunctuation(t) == t
  {
    if |t| > 0 {
      StripFixes(t[1..]);
      assert t == [t[0]] + t[1..];
    }
  }

  lemma WordIsNotSpace(c: char)
    requires IsWordChar(c)
    ensures !IsSpaceChar(c)
  {
  }

  lemma CollapsedTail(t: string)
    requires IsCollapsedText(t) && |t| > 0
    ensures IsCollapsedText(t[1..])
  {
    assert forall i :: 0 <= i < |t| - 1 ==> t[1..][i] == t[i + 1];
  }

  lemma {:induction false} CollapseFixes(t: string)
    requires IsCollapsedText(t)
    ensures CollapseSpaces(t) == t
    decreases |t|
  {
    if |t| > 0 {
      var rest := t[1..];
      CollapsedTail(t);
      CollapseFixes(rest);
      if t[0] == ' ' {
        if |rest| > 0 {
          assert IsLowerWordChar(rest[0]);
          WordIsNotSpace(rest[0]);
        }
        assert DropLeadingSpaces(rest) == rest;
        assert CollapseSpaces(t) == [' '] + CollapseSpaces(rest);
      } else {
        WordIsNotSpace(t[0]);
        assert CollapseSpaces(t) == [t[0]] + CollapseSpaces(rest);
      }
      assert t == [t[0]] + rest;
    }
  }

  /** A normalised string is a fixed point of normalisation. */
  lemma NormalizeFixesNormalized(t: string)
    requires IsNormalized(t)
    ensures Normalize(t) == t
  {
    LowerFixes(t);
    StripFixes(t);
    CollapseFixes(t);
    assert DropLeadingSpaces(t) == t;
    assert DropTrailingSpaces(t) == t;
  }

  /** normalizeString is idempotent. */
  lemma NormalizeIdempotent(s: string)
    ensures Normalize(Normalize(s)) == Normalize(s)
  {
    NormalizeFixesNormalized(Normalize(s));
  }

  /** The word characters of a string, in order. */
  function WordChars(s: string): (r: string)
    ensures forall c :: c in r ==> IsWordChar(c)
  {
    if |s| == 0 then []
    else if IsWordChar(s[0]) then [s[0]] + WordChars(s[1..])
    else WordChars(s[1..])
  }

  /** Every word character kept comes from the string. */
  lemma {:induction false} WordCharsFrom(s: string)
    ensures forall c :: c in WordChars(s) ==> c in s
    decreases |s|
  {
    if |s| > 0 {
      WordCharsFrom(s[1..]);
      assert forall c :: c in s[1..] ==> c in s;
    }
  }

  lemma {:induction false} WordCharsAppend(a: string, b: string)
    ensures WordChars(a + b) == WordChars(a) + WordChars(b)
    decreases |a|
  {
    if |a| > 0 {
      assert (a + b)[0] == a[0];
      assert (a + b)[1..] == a[1..] + b;
      WordCharsAppend(a[1..], b);
    } else {
      assert a + b == b;
    }
  }

  /** Whitespace contributes no word characters. */
  lemma {:induction false} WordCharsOfSpaces(s: string)
    requires forall i :: 0 <= i < |s| ==> IsSpaceChar(s[i])
    ensures WordChars(s) == []
    decreases |s|
  {
    if |s| > 0 {
      assert !IsWordChar(s[0]);
      WordCharsOfSpaces(s[1..]);
    }
  }

  lemma {:induction false} WordCharsStrip(s: string)
    ensures WordChars(StripPunctuation(s)) == WordChars(s)
    decreases |s|
  {
    if |s| > 0 {
      WordCharsStrip(s[1..]);
      if IsWordChar(s[0]) || IsSpaceChar(s[0]) {
        assert StripPunctuation(s) == [s[0]] + StripPunctuation(s[1..]);
        assert ([s[0]] + StripPunctuation(s[1..]))[1..] == StripPunctuation(s[1..]);
      }
    }
  }

  lemma WordCharsDropLeading(s: string)
    ensures WordChars(DropLeadingSpaces(s)) == WordChars(s)
  {
    var r := DropLeadingSpaces(s);
    var k := |s| - |r|;
    assert s == s[..k] + r;
    WordCharsAppend(s[..k], r);
    WordCharsOfSpaces(s[..k]);
  }

  lemma WordCharsDropTrailing(s: string)
    ensures WordChars(DropTrailingSpaces(s)) == WordChars(s)
  {
    var r := DropTrailingSpaces(s);
    assert s == r + s[|r|..];
    WordCharsAppend(r, s[|r|..]);
    WordCharsOfSpaces(s[|r|..]);
  }

  lemma {:induction false} WordCharsCollapse(s: string)
    ensures WordChars(CollapseSpaces(s)) == WordChars(s)
    decreases |s|
  {
    if |s| > 0 {
      if IsSpaceChar(s[0]) {
        var rest := DropLeadingSpaces(s[1..]);
        WordCharsCollapse(rest);
        WordCharsDropLeading(s[1..]);
        ConsTail(' ', CollapseSpaces(rest));
      } else {
        WordCharsCollapse(s[1..]);
        ConsTail(s[0], CollapseSpaces(s[1..]));
      }
    }
  }

  /** Non-empty normalised text starts with a word character. */
  lemma NormalizedHeadWordChar(n: string)
    requires IsNormalized(n) && n != ""
    ensures WordChars(n) != []
  {
    assert IsWordChar(n[0]);
  }

  /** A string with a word character in its word characters has one at some position. */
  lemma WordCharsWitness(s: string)
    requires WordChars(s) != []
    ensures exists k :: 0 <= k < |s| && IsWordChar(s[k])
  {
    WordCharsFrom(s);
    assert WordChars(s)[0] in s;
  }

  /** Text whose normal form is not empty holds a word character. */
  lemma NormalizedHasWordChar(s: string)
    requires Normalize(s) != ""
    ensures exists k :: 0 <= k < |s| && IsWordChar(s[k])
  {
    NormalizedHeadWordChar(Normalize(s));
    NormalizeKeepsWordChars(s);
    var lowered := Lower(s);
    WordCharsWitness(lowered);
    var k :| 0 <= k < |lowered| && IsWordChar(lowered[k]);
    assert IsWordChar(s[k]);
  }

  /**
   * Normalisation loses no word character: the letters, digits and
   * underscores of the result are exactly those of the lower-cased input, in order.
   */
  lemma NormalizeKeepsWordChars(s: string)
    ensures WordChars(Normalize(s)) == WordChars(Lower(s))
  {
    var stripped := StripPunctuation(Lower(s));
    var collapsed := CollapseSpaces(stripped);
    WordCharsStrip(Lower(s));
    WordCharsCollapse(stripped);
    WordCharsDropLeading(collapsed);
    WordCharsDropTrailing(DropLeadingSpaces(collapsed));
  }

  // ---------------------------------------------------------------------
  // levenshteinDistance
  // ---------------------------------------------------------------------

  function Min(x: int, y: int): int { if x <= y then x else y }
  function Max(x: int, y: int): int { if x >= y then x else y }

  /**
   * The unit-cost edit distance between the prefixes a[..j] and b[..i], by
   * the recurrence the dynamic program fills cell (i, j) of its matrix
   * with: equal last characters cost nothing, otherwise one substitution,
   * deletion or insertion plus the cheapest rest.
   */
  function Dist(a: string, b: string, j: nat, i: nat): nat
    requires j <= |a| && i <= |b|
    decreases i + j
  {
    if j == 0 then i
    else if i == 0 then j
    else if b[i - 1] == a[j - 1] then Dist(a, b, j - 1, i - 1)
    else 1 + Min(Dist(a, b, j - 1, i - 1), Min(Dist(a, b, j, i - 1), Dist(a, b, j - 1, i)))
  }

  /** The edit distance of two whole strings. */
  function Lev(a: string, b: string): nat {
    Dist(a, b, |a|, |b|)
  }

  /** Distance from the empty string is the other string's length. */
  lemma LevEmpty(a: string)
    ensures Lev(a, "") == |a| && Lev("", a) == |a|
  {
  }

  lemma {:induction false} DistSelf(a: string, j: nat)
    requires j <= |a|
    ensures Dist(a, a, j, j) == 0
  {
    if j > 0 {
      DistSelf(a, j - 1);
    }
  }

  lemma LevSelf(a: string)
    ensures Lev(a, a) == 0
  {
    DistSelf(a, |a|);
  }

  lemma {:induction false} DistSymmetric(a: string, b: string, j: nat, i: nat)
    requires j <= |a| && i <= |b|
    ensures Dist(a, b, j, i) == Dist(b, a, i, j)
    decreases i + j
  {
    if j > 0 && i > 0 {
      DistSymmetric(a, b, j - 1, i - 1);
      if b[i - 1] != a[j - 1] {
        DistSymmetric(a, b, j, i - 1);
        DistSymmetric(a, b, j - 1, i);
      }
    }
  }

  lemma LevSymmetric(a: string, b: string)
    ensures Lev(a, b) == Lev(b, a)
  {
    DistSymmetric(a, b, |a|, |b|);
  }

  lemma {:induction false} DistLower(a: string, b: string, j: nat, i: nat)
    requires j <= |a| && i <= |b|
    ensures j - i <= Dist(a, b, j, i) && i - j <= Dist(a, b, j, i)
    decreases i + j
  {
    if j > 0 && i > 0 {
      DistLower(a, b, j - 1, i - 1);
      if b[i - 1] != a[j - 1] {
        DistLower(a, b, j, i - 1);
        DistLower(a, b, j - 1, i);
      }
    }
  }

  lemma {:induction false} DistUpper(a: string, b: string, j: nat, i: nat)
    requires j <= |a| && i <= |b|
    ensures Dist(a, b, j, i) <= Max(j, i)
    decreases i + j
  {
    if j > 0 && i > 0 {
      DistUpper(a, b, j - 1, i - 1);
    }
  }

  /** The length difference is a lower bound and the longer length an upper bound. */
  lemma LevBounds(a: string, b: string)
    ensures |a| - |b| <= Lev(a, b) && |b| - |a| <= Lev(a, b)
    ensures Lev(a, b) <= Max(|a|, |b|)
  {
    DistLower(a, b, |a|, |b|);
    DistUpper(a, b, |a|, |b|);
  }

  lemma {:induction false} DistZeroIffEqual(a: string, b: string, j: nat, i: nat)
    requires j <= |a| && i <= |b|
    ensures Dist(a, b, j, i) == 0 <==> a[..j] == b[..i]
    decreases i + j
  {
    if j > 0 && i > 0 {
      assert a[..j] == a[..j - 1] + [a[j - 1]];
      assert b[..i] == b[..i - 1] + [b[i - 1]];
      DistZeroIffEqual(a, b, j - 1, i - 1);
    }
  }

  /** Distance zero means equal strings. */
  lemma LevZeroIffEqual(a: string, b: string)
    ensures Lev(a, b) == 0 <==> a == b
  {
    DistZeroIffEqual(a, b, |a|, |b|);
    assert a[..|a|] == a && b[..|b|] == b;
  }

  /** One cell of the matrix follows from its three neighbours by the recurrence. */
  lemma DistCell(a: string, b: string, j: nat, i: nat, diag: nat, left: nat, up: nat, cell: nat)
    requires 0 < j <= |a| && 0 < i <= |b|
    requires diag == Dist(a, b, j - 1, i - 1) && left == Dist(a, b, j - 1, i) && up == Dist(a, b, j, i - 1)
    requires cell == if b[i - 1] == a[j - 1] then diag else Min(diag + 1, Min(left + 1, up + 1))
    ensures cell == Dist(a, b, j, i)
  {
  }

  /** Row r of the distance matrix: the distances of every prefix of a to b[..r]. */
  ghost predicate IsDistRow(a: string, b: string, row: seq<nat>, r: nat)
    requires r <= |b|
  {
    |row| == |a| + 1 && forall c {:trigger row[c]} :: 0 <= c <= |a| ==> row[c] == Dist(a, b, c, r)
  }

  /**
   * levenshteinDistance: the (|b|+1) x (|a|+1) matrix whose first column
   * and first row hold their indices, filled row by row; cell (i, j) holds
   * the distance of a[..j] and b[..i]. The matrix is kept as its sequence of
   * rows, row i being built from row i - 1 and its own previous cell.
   */
  method LevenshteinDistance(a: string, b: string) returns (d: nat)
    ensures d == Lev(a, b)
  {
    var top: seq<nat> := seq(|a| + 1, c => c);
    var matrix := [top];
    var i := 1;
    while i <= |b|
      invariant 1 <= i <= |b| + 1
      invariant |matrix| == i
      invariant forall r :: 0 <= r < i ==> IsDistRow(a, b, matrix[r], r)
    {
      var above := matrix[i - 1];
      assert IsDistRow(a, b, above, i - 1);
      var row: seq<nat> := [i];
      var j := 1;
      while j <= |a|
        invariant 1 <= j <= |a| + 1
        invariant |row| == j
        invariant forall c {:trigger row[c]} :: 0 <= c < j ==> row[c] == Dist(a, b, c, i)
      {
        var cell: nat;
        if b[i - 1] == a[j - 1] {
          cell := above[j - 1];
        } else {
          cell := Min(above[j - 1] + 1, Min(row[j - 1] + 1, above[j] + 1));
        }
        DistCell(a, b, j, i, above[j - 1], row[j - 1], above[j], cell);
        row := row + [cell];
        j := j + 1;
      }
      matrix := matrix + [row];
      i := i + 1;
    }
    assert IsDistRow(a, b, matrix[|b|], |b|);
    d := matrix[|b|][|a|];
  }

  // ---------------------------------------------------------------------
  // evaluateAnswer
  // ---------------------------------------------------------------------

  /**
   * The score of two normalised strings: 0 for an empty target, 1 for equal
   * strings, otherwise one minus the edit distance over the longer length,
   * clamped below at 0.
   */
  function Similarity(normInput: string, normTarget: string): (score: real)
    ensures 0.0 <= score <= 1.0
    ensures |normTarget| == 0 ==> score == 0.0
    ensures |normInput| == 0 ==> score == 0.0
    ensures score == 1.0 <==> |normTarget| > 0 && normInput == normTarget
  {
    if |normTarget| == 0 then 0.0
    else if normInput == normTarget then 1.0
    else
      var distance := Lev(normInput, normTarget);
      var maxLength := Max(|normInput|, |normTarget|);
      LevBounds(normInput, normTarget);
      LevZeroIffEqual(normInput, normTarget);
      var score := Ratio(maxLength, distance);
      if score < 0.0 then 0.0 else score
  }

  /** `(maxLength - distance) / maxLength`. */
  function Ratio(maxLength: nat, distance: nat): (r: real)
    requires 0 < maxLength
    ensures distance <= maxLength ==> 0.0 <= r <= 1.0
    ensures r == 1.0 <==> distance == 0
  {
    (maxLength - distance) as real / maxLength as real
  }

  /** evaluateAnswer: the similarity of the two normalised strings. */
  function EvaluateAnswer(input: string, target: string): (score: real)
    ensures 0.0 <= score <= 1.0
    ensures |Normalize(target)| == 0 ==> score == 0.0
    ensures |Normalize(input)| == 0 ==> score == 0.0
    ensures score == 1.0 <==> |Normalize(target)| > 0 && Normalize(input) == Normalize(target)
  {
    Similarity(Normalize(input), Normalize(target))
  }

  /** The clamp at 0 never fires: the edit distance never exceeds the longer length. */
  lemma SimilarityUnclamped(normInput: string, normTarget: string)
    requires |normTarget| > 0 && normInput != normTarget
    ensures Similarity(normInput, normTarget)
            == Ratio(Max(|normInput|, |normTarget|), Lev(normInput, normTarget))
  {
    LevBounds(normInput, normTarget);
  }

  /** Similarity is symmetric, also when exactly one side is empty. */
  lemma SimilaritySymmetric(x: string, y: string)
    ensures Similarity(x, y) == Similarity(y, x)
  {
    LevSymmetric(x, y);
    if |x| > 0 && |y| > 0 && x != y {
      assert Max(|x|, |y|) == Max(|y|, |x|);
    }
  }

  /** The score does not depend on which string is the typed one. */
  lemma EvaluateAnswerSymmetric(a: string, b: string)
    ensures EvaluateAnswer(a, b) == EvaluateAnswer(b, a)
  {
    SimilaritySymmetric(Normalize(a), Normalize(b));
  }
}

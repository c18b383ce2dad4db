/** String operations with the meaning JavaScript gives them, and the character
    classes the application's regular expressions test.  Strings are sequences of
    Unicode scalar values; Unicode properties the program asks about (`\p{Script=Han}`,
    general categories) are approximated by explicit code-point ranges. */
module Text {
  import Lists

  // ---------------------------------------------------------------------------
  // Character classes

  /** JavaScript's `\s`: WhiteSpace and LineTerminator code points (also what `trim` removes). */
  predicate IsSpace(c: char) {
    c == '\t' || c == '\n' || c == '\U{000B}' || c == '\U{000C}' || c == '\r' || c == ' ' ||
    c == '\U{00A0}' || c == '\U{1680}' || ('\U{2000}' <= c <= '\U{200A}') ||
    c == '\U{2028}' || c == '\U{2029}' || c == '\U{202F}' || c == '\U{205F}' ||
    c == '\U{3000}' || c == '\U{FEFF}'
  }

  predicate IsAsciiDigit(c: char) { '0' <= c <= '9' }
  predicate IsAsciiUpper(c: char) { 'A' <= c <= 'Z' }
  predicate IsAsciiLower(c: char) { 'a' <= c <= 'z' }
  predicate IsAsciiLetter(c: char) { IsAsciiUpper(c) || IsAsciiLower(c) }

  /** A word character of `\b` in a regular expression without the `u` flag. */
  predicate IsWordChar(c: char) { IsAsciiLetter(c) || IsAsciiDigit(c) || c == '_' }

  /** `\p{Script=Han}`, approximated by the Han blocks (radicals, iteration marks, the
      unified ideographs with extension A and the supplementary planes, compatibility ideographs). */
  predicate IsHan(c: char) {
    ('\U{2E80}' <= c <= '\U{2FD5}') || c == '\U{3005}' || c == '\U{3007}' ||
    ('\U{3021}' <= c <= '\U{3029}') || ('\U{3038}' <= c <= '\U{303B}') ||
    ('\U{3400}' <= c <= '\U{4DBF}') || ('\U{4E00}' <= c <= '\U{9FFF}') ||
    ('\U{F900}' <= c <= '\U{FAFF}') || ('\U{20000}' <= c <= '\U{3134F}')
  }

  /** The class `[\u4E00-\u9FFF]` (the basic CJK unified ideographs block). */
  predicate IsCjkBasic(c: char) { '\U{4E00}' <= c <= '\U{9FFF}' }

  predicate HasHan(s: string) { exists i :: 0 <= i < |s| && IsHan(s[i]) }
  predicate HasCjkBasic(s: string) { exists i :: 0 <= i < |s| && IsCjkBasic(s[i]) }

  /** The tone-marked pinyin vowels `āáǎàēéěèīíǐìōóǒòūúǔùǖǘǚǜ`. */
  const ToneVowels: string := "āáǎàēéěèīíǐìōóǒòūúǔùǖǘǚǜ"
  /** Their upper-case forms, which a case-insensitive class also matches. */
  const UpperToneVowels: string := "ĀÁǍÀĒÉĚÈĪÍǏÌŌÓǑÒŪÚǓÙǕǗǙǛ"

  /** `/[āáǎàēéěèīíǐìōóǒòūúǔùǖǘǚǜ]/i` tested on one character, written as the code-point
      ranges those 48 letters occupy. */
  predicate IsToneVowel(c: char) {
    ('\U{00C0}' <= c <= '\U{00C1}') || ('\U{00C8}' <= c <= '\U{00C9}') ||
    ('\U{00CC}' <= c <= '\U{00CD}') || ('\U{00D2}' <= c <= '\U{00D3}') ||
    ('\U{00D9}' <= c <= '\U{00DA}') || ('\U{00E0}' <= c <= '\U{00E1}') ||
    ('\U{00E8}' <= c <= '\U{00E9}') || ('\U{00EC}' <= c <= '\U{00ED}') ||
    ('\U{00F2}' <= c <= '\U{00F3}') || ('\U{00F9}' <= c <= '\U{00FA}') ||
    ('\U{0100}' <= c <= '\U{0101}') || ('\U{0112}' <= c <= '\U{0113}') ||
    ('\U{011A}' <= c <= '\U{011B}') || ('\U{012A}' <= c <= '\U{012B}') ||
    ('\U{014C}' <= c <= '\U{014D}') || ('\U{016A}' <= c <= '\U{016B}') ||
    ('\U{01CD}' <= c <= '\U{01DC}')
  }

  /** The ranges hold exactly the listed letters and their upper-case forms. */
  lemma ToneVowelsListed(c: char)
    ensures IsToneVowel(c) <==> c in ToneVowels || c in UpperToneVowels
  {
  }

  predicate HasToneVowel(s: string) { exists i :: 0 <= i < |s| && IsToneVowel(s[i]) }

  /** ASCII upper case to lower case (also `Ü` to `ü`); other characters are kept. */
  function LowerChar(c: char): (r: char)
    ensures IsAsciiUpper(c) ==> IsAsciiLower(r)
    ensures !IsAsciiUpper(c) && c != 'Ü' ==> r == c
  {
    if IsAsciiUpper(c) then (c as int + 32) as char
    else if c == 'Ü' then 'ü'
    else c
  }

  /** `toLowerCase`, restricted to the letters the application's inputs use. */
  function Lower(s: string): (r: string)
    ensures |r| == |s|
    ensures forall i :: 0 <= i < |s| ==> r[i] == LowerChar(s[i])
  {
    if s == [] then [] else [LowerChar(s[0])] + Lower(s[1..])
  }

  function UpperChar(c: char): char {
    if IsAsciiLower(c) then (c as int - 32) as char else if c == 'ü' then 'Ü' else c
  }

  /** Equality of two characters under the case folding of a `/i` expression. */
  predicate SameFolded(a: char, b: char) { UpperChar(a) == UpperChar(b) }

  // ---------------------------------------------------------------------------
  // Trimming and whitespace

  function TrimStart(s: string): (r: string)
    ensures |r| <= |s| && r == s[|s| - |r|..]
    ensures r == [] || !IsSpace(r[0])
    ensures forall i :: 0 <= i < |s| - |r| ==> IsSpace(s[i])
  {
    if s != [] && IsSpace(s[0]) then
      var r := TrimStart(s[1..]);
      assert s[1..][|s| - 1 - |r|..] == s[|s| - |r|..];
      assert forall i :: 1 <= i < |s| - |r| ==> s[1..][i - 1] == s[i];
      r
    else s
  }

  function TrimEnd(s: string): (r: string)
    ensures |r| <= |s| && r == s[..|r|]
    ensures r == [] || !IsSpace(r[|r| - 1])
    ensures forall i :: |r| <= i < |s| ==> IsSpace(s[i])
  {
    if s != [] && IsSpace(s[|s| - 1]) then TrimEnd(s[..|s| - 1]) else s
  }

  /** `String.prototype.trim`: drop leading and trailing whitespace. */
  function Trim(s: string): (r: string)
    ensures r == [] || (!IsSpace(r[0]) && !IsSpace(r[|r| - 1]))
    ensures |r| <= |s|
  {
    TrimEnd(TrimStart(s))
  }

  /** A string that starts and ends with a non-space character is its own trim. */
  lemma TrimNoEdgeSpace(s: string)
    requires s != [] && !IsSpace(s[0]) && !IsSpace(s[|s| - 1])
    ensures Trim(s) == s
  {
  }

  lemma {:induction false} TrimStartKeeps(s: string, c: char)
    requires c in s && !IsSpace(c)
    ensures c in TrimStart(s)
  {
    if IsSpace(s[0]) {
      assert c in s[1..];
      TrimStartKeeps(s[1..], c);
    }
  }

  lemma {:induction false} TrimEndKeeps(s: string, c: char)
    requires c in s && !IsSpace(c)
    ensures c in TrimEnd(s)
  {
    if IsSpace(s[|s| - 1]) {
      assert s == s[..|s| - 1] + [s[|s| - 1]];
      assert c in s[..|s| - 1];
      TrimEndKeeps(s[..|s| - 1], c);
    }
  }

  /** Trimming never loses a non-space character. */
  lemma TrimKeepsNonSpace(s: string, c: char)
    requires c in s && !IsSpace(c)
    ensures c in Trim(s)
  {
    TrimStartKeeps(s, c);
    TrimEndKeeps(TrimStart(s), c);
  }

  /** No whitespace at either end: what `trim` leaves, and what it leaves unchanged. */
  predicate Trimmed(s: string) {
    s == [] || (!IsSpace(s[0]) && !IsSpace(s[|s| - 1]))
  }

  lemma TrimmedIsFixed(s: string)
    requires Trimmed(s)
    ensures Trim(s) == s
  {
    if s != [] { TrimNoEdgeSpace(s); }
  }

  lemma TrimIdempotent(s: string)
    ensures Trim(Trim(s)) == Trim(s)
  {
    var t := Trim(s);
    if t != [] { TrimNoEdgeSpace(t); }
  }

  /** `s.replace(/\s+/g, ' ')`: every maximal whitespace run becomes one space. */
  function CollapseRuns(s: string): (r: string)
    ensures |r| <= |s|
    ensures s != [] && IsSpace(s[0]) ==> r != [] && r[0] == ' '
    ensures s != [] && !IsSpace(s[0]) ==> r != [] && r[0] == s[0]
    ensures forall i :: 0 <= i < |r| ==> r[i] == ' ' || (!IsSpace(r[i]) && r[i] in s)
    ensures forall i :: 0 <= i < |r| - 1 ==> !(IsSpace(r[i]) && IsSpace(r[i + 1]))
  {
    if s == [] then []
    else if IsSpace(s[0]) then [' '] + CollapseRuns(TrimStart(s))
    else [s[0]] + CollapseRuns(s[1..])
  }

  /** `String(s).replace(/\s+/g, ' ').trim()` (the program's `cleanSpaces`). */
  function CleanSpaces(s: string): (r: string)
    ensures r == [] || (!IsSpace(r[0]) && !IsSpace(r[|r| - 1]))
  {
    Trim(CollapseRuns(s))
  }

  /** `s.replace(/\s+/g, '')`. */
  function RemoveSpaces(s: string): (r: string)
    ensures forall i :: 0 <= i < |r| ==> !IsSpace(r[i]) && r[i] in s
    ensures forall c :: c in s && !IsSpace(c) ==> c in r
  {
    if s == [] then [] else (if IsSpace(s[0]) then [] else [s[0]]) + RemoveSpaces(s[1..])
  }

  /** A text without whitespace is kept whole. */
  lemma {:induction false} RemoveSpacesFixed(s: string)
    requires forall i :: 0 <= i < |s| ==> !IsSpace(s[i])
    ensures RemoveSpaces(s) == s
  {
    if s != [] { RemoveSpacesFixed(s[1..]); }
  }

  /** Lower-casing twice is lower-casing once. */
  lemma LowerIdempotent(s: string)
    ensures Lower(Lower(s)) == Lower(s)
  {
    forall i | 0 <= i < |s| ensures LowerChar(LowerChar(s[i])) == LowerChar(s[i]) {
      LowerCharIdempotent(s[i]);
    }
  }

  lemma LowerCharIdempotent(c: char)
    ensures LowerChar(LowerChar(c)) == LowerChar(c)
  {
  }

  // ---------------------------------------------------------------------------
  // Searching

  predicate StartsWith(s: string, p: string) { |p| <= |s| && s[..|p|] == p }
  predicate EndsWith(s: string, p: string) { |p| <= |s| && s[|s| - |p|..] == p }

  /** `t` occurs in `s` at position `i`. */
  predicate OccursAt(s: string, t: string, i: int) {
    0 <= i && i + |t| <= |s| && s[i..i + |t|] == t
  }

  /** `s.includes(t)`. */
  predicate Contains(s: string, t: string) {
    exists i :: 0 <= i <= |s| - |t| && OccursAt(s, t, i)
  }

  lemma ContainsSelf(s: string)
    ensures Contains(s, s)
  {
    assert OccursAt(s, s, 0);
  }

  lemma PrefixContained(s: string, p: string)
    requires StartsWith(s, p)
    ensures Contains(s, p)
  {
    assert OccursAt(s, p, 0);
  }

  lemma SuffixContained(s: string, p: string)
    requires EndsWith(s, p)
    ensures Contains(s, p)
  {
    assert OccursAt(s, p, |s| - |p|);
  }

  lemma StartsWithAppend(a: string, b: string)
    ensures StartsWith(a + b, a)
  {
    assert (a + b)[..|a|] == a;
  }

  lemma EndsWithAppend(a: string, b: string)
    ensures EndsWith(a + b, b)
  {
    assert (a + b)[|a|..] == b;
  }

  lemma StartsWithTrans(s: string, a: string, b: string)
    requires StartsWith(s, a) && StartsWith(a, b)
    ensures StartsWith(s, b)
  {
    assert s[..|b|] == a[..|b|];
  }

  /** What occurs in a prefix occurs in the whole string. */
  lemma ContainsInPrefix(s: string, p: string, t: string)
    requires StartsWith(s, p) && Contains(p, t)
    ensures Contains(s, t)
  {
    var i :| 0 <= i <= |p| - |t| && OccursAt(p, t, i);
    assert s[i..i + |t|] == p[i..i + |t|];
    assert OccursAt(s, t, i);
  }

  /** `s.indexOf(t, from)`: the first position at or after `from` where `t` occurs, or -1. */
  function IndexOfFrom(s: string, t: string, from: nat): (r: int)
    requires t != []
    ensures r == -1 || (from <= r && OccursAt(s, t, r))
    ensures r == -1 ==> forall i :: from <= i ==> !OccursAt(s, t, i)
    ensures r != -1 ==> forall i :: from <= i < r ==> !OccursAt(s, t, i)
    decreases |s| - from
  {
    if from + |t| > |s| then -1
    else if s[from..from + |t|] == t then from
    else IndexOfFrom(s, t, from + 1)
  }

  function IndexOf(s: string, t: string): (r: int)
    requires t != []
    ensures r == -1 || OccursAt(s, t, r)
    ensures r == -1 <==> !Contains(s, t)
    ensures r != -1 ==> forall i :: 0 <= i < r ==> !OccursAt(s, t, i)
  {
    IndexOfFrom(s, t, 0)
  }

  /** An occurrence with none before it is the one `indexOf` finds. */
  lemma IndexOfIs(s: string, t: string, k: int)
    requires t != [] && OccursAt(s, t, k)
    requires forall j :: 0 <= j < k ==> !OccursAt(s, t, j)
    ensures IndexOf(s, t) == k
  {
    assert 0 <= k <= |s| - |t|;
    assert Contains(s, t);
  }

  /** The position of the first `c` in `s`, or `|s|` when there is none. */
  function FirstIndex(s: string, c: char): (r: nat)
    ensures r <= |s| && c !in s[..r]
    ensures r < |s| ==> s[r] == c
    ensures r == |s| <==> c !in s
  {
    if s == [] then 0 else if s[0] == c then 0 else 1 + FirstIndex(s[1..], c)
  }

  // ---------------------------------------------------------------------------
  // Joining and splitting

  /** `xs.join(sep)`. */
  function Join(xs: seq<string>, sep: string): (r: string)
    ensures |xs| == 1 ==> r == xs[0]
  {
    if xs == [] then [] else if |xs| == 1 then xs[0] else xs[0] + sep + Join(xs[1..], sep)
  }

  lemma JoinEmptyIffAllEmpty(xs: seq<string>, sep: string)
    requires sep != []
    ensures (Join(xs, sep) == []) <==> (xs == [] || (|xs| == 1 && xs[0] == []))
  {
    if |xs| > 1 {
      assert |Join(xs, sep)| >= |sep|;
    }
  }

  lemma JoinAppend(xs: seq<string>, x: string, sep: string)
    ensures Join(xs + [x], sep) == if xs == [] then x else Join(xs, sep) + sep + x
  {
    if |xs| > 1 {
      assert (xs + [x])[1..] == xs[1..] + [x];
      JoinAppend(xs[1..], x, sep);
    } else if |xs| == 1 {
      assert (xs + [x])[1..] == [x];
    }
  }

  /** Joining two non-empty lists puts one separator between their joins. */
  lemma {:induction false} JoinConcat(xs: seq<string>, ys: seq<string>, sep: string)
    requires xs != [] && ys != []
    ensures Join(xs + ys, sep) == Join(xs, sep) + sep + Join(ys, sep)
    decreases |xs|
  {
    if |xs| == 1 {
      assert (xs + ys)[1..] == ys;
    } else {
      assert (xs + ys)[1..] == xs[1..] + ys;
      JoinConcat(xs[1..], ys, sep);
    }
  }

  /** The join of a middle part of a list occurs in the join of the whole list. */
  lemma JoinInfix(head: seq<string>, mid: seq<string>, tail: seq<string>, sep: string)
    requires head != [] && mid != [] && tail != []
    ensures OccursAt(Join(head + mid + tail, sep), Join(mid, sep), |Join(head, sep) + sep|)
  {
    hide *;
    JoinConcat(head, mid + tail, sep);
    JoinConcat(mid, tail, sep);
    assert head + mid + tail == head + (mid + tail);
    var pre := Join(head, sep) + sep;
    assert Join(head + mid + tail, sep) == pre + Join(mid, sep) + (sep + Join(tail, sep));
    InfixAt(pre, Join(mid, sep), sep + Join(tail, sep));
  }

  /** `b` occurs in `a + b + c` right after `a`. */
  lemma InfixAt(a: string, b: string, c: string)
    ensures OccursAt(a + b + c, b, |a|)
  {
    assert (a + b + c)[|a|..|a| + |b|] == b;
  }

  /** A list of at least two strings joins to its first string and a separator, then the rest. */
  lemma JoinFirst(xs: seq<string>, sep: string)
    requires |xs| >= 2
    ensures Join(xs, sep) == xs[0] + sep + Join(xs[1..], sep)
    ensures StartsWith(Join(xs, sep), xs[0] + sep)
  {
    assert Join(xs, sep) == xs[0] + sep + Join(xs[1..], sep);
  }

  /** `s.split(c)` for a one-character separator. */
  function SplitOn(s: string, c: char): (r: seq<string>)
    ensures |r| >= 1
    ensures forall k :: 0 <= k < |r| ==> c !in r[k]
    ensures c !in s ==> r == [s]
    decreases |s|
  {
    var i := FirstIndex(s, c);
    if i == |s| then [s] else [s[..i]] + SplitOn(s[i + 1..], c)
  }

  /** Joining the pieces with the separator gives back the input. */
  lemma {:induction false} SplitOnJoin(s: string, c: char)
    ensures Join(SplitOn(s, c), [c]) == s
    decreases |s|
  {
    hide *;
    var i := FirstIndex(s, c);
    if i < |s| {
      var rest := SplitOn(s[i + 1..], c);
      SplitOnJoin(s[i + 1..], c);
      SplitOnFirst(s, c);
      var xs := [s[..i]] + rest;
      JoinFirst(xs, [c]);
      assert xs[1..] == rest;
      assert s == s[..i] + [c] + s[i + 1..];
    } else {
      SplitOnFirst(s, c);
    }
  }

  /** The first piece ends at the first separator; without one the input is the only piece. */
  lemma SplitOnFirst(s: string, c: char)
    ensures var i := FirstIndex(s, c);
      SplitOn(s, c) == if i == |s| then [s] else [s[..i]] + SplitOn(s[i + 1..], c)
  {
  }

  /** Splitting a join of separator-free pieces gives the pieces back. */
  lemma {:induction false} JoinSplitOn(xs: seq<string>, c: char)
    requires xs != []
    requires forall k :: 0 <= k < |xs| ==> c !in xs[k]
    ensures SplitOn(Join(xs, [c]), c) == xs
    decreases |xs|
  {
    hide *;
    if |xs| > 1 {
      var a := xs[0];
      var b := Join(xs[1..], [c]);
      JoinFirst(xs, [c]);
      SplitOnAfter(a, b, c);
      JoinSplitOn(xs[1..], c);
      assert xs == [a] + xs[1..];
    }
  }

  /** A first piece free of the separator splits off as the first piece. */
  lemma SplitOnAfter(a: string, b: string, c: char)
    requires c !in a
    ensures SplitOn(a + [c] + b, c) == [a] + SplitOn(b, c)
  {
    var s := a + [c] + b;
    FirstIndexAfter(a, b, c);
    assert s[..|a|] == a && s[|a| + 1..] == b;
  }

  lemma FirstIndexAfter(a: string, b: string, c: char)
    requires c !in a
    ensures FirstIndex(a + [c] + b, c) == |a|
  {
    var s := a + [c] + b;
    assert s[|a|] == c && s[..|a|] == a;
  }

  /** `s.split(/\s+/)`-style tokens after `trim().split(/\s+/).filter(Boolean)`:
      the maximal runs of non-space characters, in order. */
  function Words(s: string): (r: seq<string>)
    ensures forall k :: 0 <= k < |r| ==> r[k] != [] && NoSpace(r[k])
    decreases |s|
  {
    if s == [] then []
    else if IsSpace(s[0]) then Words(s[1..])
    else
      var w := LeadingWord(s);
      [w] + Words(s[|w|..])
  }

  /** A character absent from the text is absent from every word split from it. */
  lemma {:induction false} WordsFromInput(s: string, c: char)
    requires c !in s
    ensures forall k :: 0 <= k < |Words(s)| ==> c !in Words(s)[k]
    decreases |s|
  {
    if s != [] {
      if IsSpace(s[0]) {
        WordsFromInput(s[1..], c);
      } else {
        var w := LeadingWord(s);
        var rest := s[|w|..];
        WordsFromInput(rest, c);
        assert w == s[..|w|];
        var ws := Words(s);
        var wr := Words(rest);
        assert ws == [w] + wr;
        forall k | 0 <= k < |ws| ensures c !in ws[k] {
          if k > 0 {
            assert ws[k] == wr[k - 1];
          }
        }
      }
    }
  }

  /** A character absent from a text is absent from its suffixes. */
  lemma SuffixLacks(s: string, i: nat, c: char)
    requires i <= |s| && c !in s
    ensures c !in s[i..]
  {
  }

  /** A character absent from a text is absent from its prefixes. */
  lemma PrefixLacks(s: string, i: nat, c: char)
    requires i <= |s| && c !in s
    ensures c !in s[..i]
  {
  }

  predicate NoSpace(w: string) { forall i :: 0 <= i < |w| ==> !IsSpace(w[i]) }

  /** The longest prefix of `s` without whitespace. */
  function LeadingWord(s: string): (r: string)
    ensures StartsWith(s, r)
    ensures NoSpace(r)
    ensures |r| < |s| ==> IsSpace(s[|r|])
    ensures s != [] && !IsSpace(s[0]) ==> r != []
  {
    if s == [] || IsSpace(s[0]) then [] else [s[0]] + LeadingWord(s[1..])
  }

  /** `cleanSpaces` is the text's words joined by single spaces. */
  lemma {:induction false} CleanSpacesIsJoinedWords(s: string)
    ensures CleanSpaces(s) == Join(Words(s), " ")
  {
    var t := TrimStart(s);
    WordsOfTrimStart(s);
    if s != [] && IsSpace(s[0]) {
      assert CollapseRuns(s) == [' '] + CollapseRuns(t);
      TrimStartOfSpace(CollapseRuns(t));
    }
    CollapsedWords(t);
  }

  /** The same for a text that does not start with whitespace. */
  lemma {:induction false} CollapsedWords(s: string)
    requires s == [] || !IsSpace(s[0])
    ensures Trim(CollapseRuns(s)) == Join(Words(s), " ")
    decreases |s|
  {
    if s != [] {
      var w := LeadingWord(s);
      var rest := s[|w|..];
      WordSplit(s);
      if rest == [] {
        LastWord(w);
      } else {
        var t := TrimStart(rest);
        WhiteRun(rest);
        if t == [] {
          TrimWordSpace(w);
        } else {
          CollapsedWords(t);
          WordThenWords(w, CollapseRuns(t), Words(t));
        }
      }
    }
  }

  /** A text that starts with a word: the word, then what follows it. */
  lemma WordSplit(s: string)
    requires s != [] && !IsSpace(s[0])
    ensures var w := LeadingWord(s); var rest := s[|w|..];
      w != [] && NoSpace(w) && (rest == [] || IsSpace(rest[0])) &&
      Words(s) == [w] + Words(rest) && CollapseRuns(s) == w + CollapseRuns(rest)
  {
    var w := LeadingWord(s);
    assert w == s[..|w|];
    CollapseWord(s, |w|);
  }

  /** A text that starts with white space: one space, then what follows the run. */
  lemma WhiteRun(rest: string)
    requires rest != [] && IsSpace(rest[0])
    ensures var t := TrimStart(rest);
      (t == [] || !IsSpace(t[0])) &&
      Words(rest) == Words(t) && CollapseRuns(rest) == [' '] + CollapseRuns(t)
  {
    WordsOfTrimStart(rest);
  }

  /** The last word of a text. */
  lemma LastWord(w: string)
    requires w != [] && NoSpace(w)
    ensures Trim(w + CollapseRuns([])) == Join([w] + Words([]), " ")
  {
    assert w + CollapseRuns([]) == w;
    assert [w] + Words([]) == [w];
    TrimNoEdgeSpace(w);
  }

  /** A word followed by one space trims to the word. */
  lemma TrimWordSpace(w: string)
    requires w != [] && NoSpace(w)
    ensures Trim(w + ([' '] + CollapseRuns([]))) == Join([w] + Words([]), " ")
  {
    assert w + ([' '] + CollapseRuns([])) == w + [' '];
    assert [w] + Words([]) == [w];
    assert (w + [' '])[..|w|] == w;
    TrimNoEdgeSpace(w);
  }

  /** A word, a space and a collapsed rest that trims to the joined words `ws`. */
  lemma WordThenWords(w: string, c: string, ws: seq<string>)
    requires w != [] && NoSpace(w)
    requires c != [] && !IsSpace(c[0]) && Trim(c) == Join(ws, " ")
    requires ws != [] && ws[0] != []
    ensures Trim(w + ([' '] + c)) == Join([w] + ws, " ")
  {
    Lists.Assoc(w, [' '], c);
    assert TrimStart(c) == c;
    JoinNonEmpty(ws);
    TrimEndAppend(w + [' '], c);
    var x := (w + [' ']) + c;
    assert x[0] == w[0];
    assert TrimStart(x) == x;
    assert ([w] + ws)[1..] == ws;
  }

  lemma {:induction false} JoinNonEmpty(ws: seq<string>)
    requires ws != [] && ws[0] != []
    ensures Join(ws, " ") != []
  {
  }

  /** Collapsing passes a prefix without whitespace through unchanged. */
  lemma {:induction false} CollapseWord(s: string, n: nat)
    requires n <= |s| && NoSpace(s[..n])
    ensures CollapseRuns(s) == s[..n] + CollapseRuns(s[n..])
  {
    if n == 0 {
      assert s[..0] == [] && s[0..] == s;
    } else {
      var t := s[1..];
      NoSpaceTail(s, n);
      CollapseStep(s);
      CollapseWord(t, n - 1);
      CollapseRegroup(s, n, CollapseRuns(s[n..]));
    }
  }

  /** The sequence bookkeeping of one step of `CollapseWord`. */
  lemma CollapseRegroup(s: string, n: nat, x: string)
    requires 0 < n <= |s|
    ensures s[1..][n - 1..] == s[n..]
    ensures [s[0]] + (s[1..][..n - 1] + x) == s[..n] + x
  {
    assert [s[0]] + s[1..][..n - 1] == s[..n];
    Lists.Assoc([s[0]], s[1..][..n - 1], x);
  }

  lemma CollapseStep(s: string)
    requires s != [] && !IsSpace(s[0])
    ensures CollapseRuns(s) == [s[0]] + CollapseRuns(s[1..])
  {
  }

  lemma NoSpaceTail(s: string, n: nat)
    requires 0 < n <= |s| && NoSpace(s[..n])
    ensures !IsSpace(s[0]) && NoSpace(s[1..][..n - 1])
  {
    assert s[..n][0] == s[0];
    var u := s[1..][..n - 1];
    forall i | 0 <= i < |u| ensures !IsSpace(u[i]) {
      assert u[i] == s[..n][i + 1];
    }
  }

  lemma {:induction false} WordsOfTrimStart(s: string)
    ensures Words(TrimStart(s)) == Words(s)
    decreases |s|
  {
    if s != [] && IsSpace(s[0]) { WordsOfTrimStart(s[1..]); }
  }

  lemma TrimStartOfSpace(s: string)
    ensures TrimStart([' '] + s) == TrimStart(s)
  {
    assert ([' '] + s)[1..] == s;
  }

  /** Trailing whitespace of `b` is all `TrimEnd` removes from `a + b` while `b` keeps a
      non-space character. */
  lemma {:induction false} TrimEndAppend(a: string, b: string)
    requires TrimEnd(b) != []
    ensures TrimEnd(a + b) == a + TrimEnd(b)
    decreases |b|
  {
    if IsSpace(b[|b| - 1]) {
      assert (a + b)[..|a + b| - 1] == a + b[..|b| - 1];
      TrimEndAppend(a, b[..|b| - 1]);
    }
  }

  // ---------------------------------------------------------------------------
  // Regular-expression word boundaries

  /** `\b` at position `p` of `s`: a word character on exactly one side. */
  predicate WordBoundary(s: string, p: nat)
    requires p <= |s|
  {
    (p > 0 && IsWordChar(s[p - 1])) != (p < |s| && IsWordChar(s[p]))
  }

  /** `/\b[letters]+[digits]\b/i`: some run of pinyin letters followed by one tone digit,
      with a word boundary on both sides.  `withV` adds `v` to the letters and
      `maxDigit` is the largest tone digit the class admits. */
  predicate HasToneNumber(s: string, withV: bool, maxDigit: char) {
    exists i, j :: 0 <= i < j < |s| && ToneNumberAt(s, i, j, withV, maxDigit)
  }

  /** The letters `s[i..j]` and the digit `s[j]` form a match of that expression. */
  predicate ToneNumberAt(s: string, i: nat, j: nat, withV: bool, maxDigit: char)
    requires i < j < |s|
  {
    WordBoundary(s, i) && WordBoundary(s, j + 1) && '1' <= s[j] && s[j] <= maxDigit &&
    forall k :: i <= k < j ==> IsPinyinLetter(s[k], withV)
  }

  predicate IsPinyinLetter(c: char, withV: bool) {
    IsAsciiLetter(c) || c == '\U{00FC}' || c == '\U{00DC}' || (withV && (c == 'v' || c == 'V'))
  }

  // ---------------------------------------------------------------------------
  // Numbers

  /** `String(n)` for an integer. */
  function NatToString(n: nat): (r: string)
    ensures r != [] && forall i :: 0 <= i < |r| ==> IsAsciiDigit(r[i])
  {
    if n < 10 then [('0' as int + n) as char] else NatToString(n / 10) + [('0' as int + n % 10) as char]
  }

  function IntToString(n: int): (r: string)
    ensures r != []
  {
    if n < 0 then "-" + NatToString(-n) else NatToString(n)
  }

  /** The value of a run of decimal digits. */
  function DigitsValue(s: string): (r: nat)
    requires forall i :: 0 <= i < |s| ==> IsAsciiDigit(s[i])
  {
    if s == [] then 0
    else
      assert IsAsciiDigit(s[|s| - 1]);
      DigitsValue(s[..|s| - 1]) * 10 + (s[|s| - 1] as int - '0' as int)
  }

  lemma {:induction false} DigitsRoundTrip(n: nat)
    ensures DigitsValue(NatToString(n)) == n
  {
    if n >= 10 {
      var s := NatToString(n);
      assert s[..|s| - 1] == NatToString(n / 10);
      DigitsRoundTrip(n / 10);
    }
  }
}

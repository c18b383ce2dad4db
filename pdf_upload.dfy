/** The vocabulary line parser of the upload panel (`src/components/PDFUpload.jsx`):
    each pasted or extracted line is cut into tokens, and a row is kept when a Hanzi,
    a pinyin and an English token can be told apart. */
module PdfUpload {
  import opened Wrappers
  import opened Text
  import opened Lists

  // ---------------------------------------------------------------------------
  // Character tests (14-23)

  /** `isLikelyPinyin(s)`: the trimmed text has a tone-marked vowel, or a run of letters
      (with `ü`) ending in a tone digit 1-5 between word boundaries. */
  predicate IsLikelyPinyin(s: string) {
    var t := Trim(s);
    HasToneVowel(t) || HasToneNumber(t, false, '5')
  }

  /** `\p{Letter}`, `\p{Number}`, `\p{Punctuation}` or `\p{Separator}`: exact on ASCII;
      beyond it, approximated as everything but the C1 controls, the Latin-1 symbols,
      the arrow, mathematical, technical, box and dingbat blocks, the private use area
      and the emoji planes. */
  predicate IsGlossChar(c: char) {
    if c < '\U{0080}' then
      IsAsciiLetter(c) || IsAsciiDigit(c) || c == ' ' ||
      c == '!' || c == '"' || c == '#' || c == '%' || c == '&' || c == '\'' || c == '(' ||
      c == ')' || c == '*' || c == ',' || c == '-' || c == '.' || c == '/' || c == ':' ||
      c == ';' || c == '?' || c == '@' || c == '[' || c == '\\' || c == ']' || c == '_' ||
      c == '{' || c == '}'
    else
      !(c < '\U{00A0}' || c == '\U{00AD}' || c == '¢' || c == '£' || c == '¤' || c == '¥' || c == '¦' ||
        c == '¨' || c == '©' || c == '¬' || c == '®' || c == '¯' || c == '°' || c == '±' ||
        c == '´' || c == '¸' || c == '×' || c == '÷' ||
        ('\U{2190}' <= c <= '\U{2BFF}') || ('\U{E000}' <= c <= '\U{F8FF}') ||
        ('\U{1F000}' <= c <= '\U{1FAFF}'))
  }

  /** `/^[\p{Letter}\p{Number}\p{Punctuation}\p{Separator}]+$/u`. */
  predicate IsGloss(s: string) {
    s != [] && forall k :: 0 <= k < |s| ==> IsGlossChar(s[k])
  }

  // ---------------------------------------------------------------------------
  // Tokenisation (39-42)

  /** The separators tried after the tab: `/\s+-\s+/`, `/\s{2,}/` and `/\s+/`. */
  datatype Separator = Dash | Wide | Spaces

  /** The number of white-space characters `s` starts with. */
  function SpaceRun(s: string): (n: nat)
    ensures n <= |s|
    ensures forall k :: 0 <= k < n ==> IsSpace(s[k])
    ensures n < |s| ==> !IsSpace(s[n])
  {
    if s != [] && IsSpace(s[0]) then 1 + SpaceRun(s[1..]) else 0
  }

  /** The length of the separator match starting at the head of `s`, 0 for none.  A
      white-space run is matched whole, since what follows it is not white space. */
  function SepLen(sep: Separator, s: string): (n: nat)
    ensures n <= |s|
    ensures n > 0 ==> IsSpace(s[0])
  {
    var w := SpaceRun(s);
    match sep
    case Dash =>
      if 0 < w && w + 1 < |s| && s[w] == '-' && IsSpace(s[w + 1]) then
        w + 1 + SpaceRun(s[w + 1..])
      else 0
    case Wide => if w >= 2 then w else 0
    case Spaces => w
  }

  /** `s.split(regex)`: scanning from the left, a piece ends wherever a separator match
      starts, and the match is skipped.  `cur` is the piece read so far. */
  function SplitBy(s: string, sep: Separator, cur: string): (r: seq<string>)
    ensures r != []
    decreases |s|
  {
    if s == [] then [cur]
    else
      var n := SepLen(sep, s);
      if n > 0 then [cur] + SplitBy(s[n..], sep, [])
      else SplitBy(s[1..], sep, cur + [s[0]])
  }

  /** A piece split at white-space runs holds no white space. */
  lemma {:induction false} SpacesPieces(s: string, cur: string)
    requires NoSpace(cur)
    ensures forall k :: 0 <= k < |SplitBy(s, Spaces, cur)| ==> NoSpace(SplitBy(s, Spaces, cur)[k])
    decreases |s|
  {
    if s != [] {
      var n := SepLen(Spaces, s);
      if n > 0 {
        SpacesPieces(s[n..], []);
        var r := SplitBy(s, Spaces, cur);
        var rest := SplitBy(s[n..], Spaces, []);
        assert r == [cur] + rest;
        forall k | 0 <= k < |r| ensures NoSpace(r[k]) {
          if k > 0 { assert r[k] == rest[k - 1]; }
        }
      } else {
        SpacesPieces(s[1..], cur + [s[0]]);
      }
    }
  }

  /** The tokens of a line: the first of the four splits that gives at least three
      parts, else the split at every white-space run. */
  function Tokenize(line: string): (parts: seq<string>)
    ensures parts != []
    ensures |SplitOn(line, '\t')| >= 3 ==> parts == SplitOn(line, '\t')
    ensures |SplitOn(line, '\t')| < 3 && |SplitBy(line, Dash, [])| >= 3 ==>
      parts == SplitBy(line, Dash, [])
    ensures |SplitOn(line, '\t')| < 3 && |SplitBy(line, Dash, [])| < 3 && |SplitBy(line, Wide, [])| >= 3 ==>
      parts == SplitBy(line, Wide, [])
    ensures |SplitOn(line, '\t')| < 3 && |SplitBy(line, Dash, [])| < 3 && |SplitBy(line, Wide, [])| < 3 ==>
      parts == SplitBy(line, Spaces, [])
  {
    var tabs := SplitOn(line, '\t');
    if |tabs| >= 3 then tabs
    else
      var dashes := SplitBy(line, Dash, []);
      if |dashes| >= 3 then dashes
      else
        var wide := SplitBy(line, Wide, []);
        if |wide| >= 3 then wide else SplitBy(line, Spaces, [])
  }

  /** A tab split gives the line back when joined with tabs; the last resort split gives
      tokens without white space. */
  lemma TokenizeSplits(line: string)
    ensures |SplitOn(line, '\t')| >= 3 ==> Join(Tokenize(line), "\t") == line
    ensures Tokenize(line) == SplitBy(line, Spaces, []) ==>
      forall k :: 0 <= k < |Tokenize(line)| ==> NoSpace(Tokenize(line)[k])
  {
    SplitOnJoin(line, '\t');
    SpacesPieces(line, []);
  }

  // ---------------------------------------------------------------------------
  // Classification (44-69)

  /** The position of the first token satisfying `p`; `|parts|` when there is none. */
  function IndexWhere(parts: seq<string>, p: string -> bool): (r: nat)
    ensures r <= |parts|
    ensures r < |parts| ==> p(parts[r])
    ensures forall j :: 0 <= j < r ==> !p(parts[j])
  {
    if parts == [] then 0
    else if p(parts[0]) then 0
    else 1 + IndexWhere(parts[1..], p)
  }

  /** The position of the first token containing a Han character. */
  function HanziIndex(parts: seq<string>): nat {
    IndexWhere(parts, HasHan)
  }

  /** The Hanzi of a line: the first token containing a Han character, with its white
      space cleaned; `""` exactly when no token contains one. */
  function FirstHanzi(parts: seq<string>): (r: string)
    ensures r == [] <==> forall k :: 0 <= k < |parts| ==> !HasHan(parts[k])
    ensures r != [] ==> HasHan(r)
  {
    var i := HanziIndex(parts);
    if i < |parts| then
      HanSurvives(parts[i]);
      CleanSpaces(parts[i])
    else []
  }

  /** A token with a Han character keeps it through the cleaning. */
  lemma HanSurvives(s: string)
    requires HasHan(s)
    ensures HasHan(CleanSpaces(s))
  {
    var i :| 0 <= i < |s| && IsHan(s[i]);
    var c := s[i];
    CollapseKeeps(s, i);
    TrimKeepsNonSpace(CollapseRuns(s), c);
    var t := CleanSpaces(s);
    var k :| 0 <= k < |t| && t[k] == c;
  }

  /** Collapsing white space keeps every other character. */
  lemma {:induction false} CollapseKeeps(s: string, i: nat)
    requires i < |s| && !IsSpace(s[i])
    ensures s[i] in CollapseRuns(s)
    decreases |s|
  {
    if IsSpace(s[0]) {
      var t := TrimStart(s);
      var j := i - (|s| - |t|);
      assert t[j] == s[i];
      CollapseKeeps(t, j);
    } else if i > 0 {
      CollapseKeeps(s[1..], i - 1);
    }
  }

  /** The loop that finds the Hanzi, stopping at the first match. */
  method FindHanzi(parts: seq<string>) returns (hanzi: string)
    ensures hanzi == FirstHanzi(parts)
  {
    hanzi := [];
    var i := 0;
    while i < |parts|
      invariant 0 <= i <= |parts|
      invariant forall j :: 0 <= j < i ==> !HasHan(parts[j])
    {
      if HasHan(parts[i]) {
        assert HanziIndex(parts) == i;
        hanzi := CleanSpaces(parts[i]);
        return;
      }
      i := i + 1;
    }
    assert HanziIndex(parts) == |parts|;
  }

  /** Whether the pinyin search picks this token: not empty, not the Hanzi once
      cleaned, and likely pinyin. */
  predicate PinyinPick(tok: string, hanzi: string) {
    tok != [] && CleanSpaces(tok) != hanzi && IsLikelyPinyin(CleanSpaces(tok))
  }

  function PicksPinyin(hanzi: string): string -> bool {
    tok => PinyinPick(tok, hanzi)
  }

  /** The position of the first token picked as pinyin. */
  function PinyinIndex(parts: seq<string>, hanzi: string): nat {
    IndexWhere(parts, PicksPinyin(hanzi))
  }

  /** The pinyin of a line: the first picked token, cleaned; `""` exactly when no token
      is picked.  It is never the Hanzi. */
  function FirstPinyin(parts: seq<string>, hanzi: string): (r: string)
    ensures r == [] <==> forall k :: 0 <= k < |parts| ==> !PinyinPick(parts[k], hanzi)
    ensures r != [] ==> r != hanzi && IsLikelyPinyin(r)
  {
    var i := PinyinIndex(parts, hanzi);
    if i < |parts| then
      LikelyPinyinNonEmpty(CleanSpaces(parts[i]));
      CleanSpaces(parts[i])
    else []
  }

  lemma LikelyPinyinNonEmpty(s: string)
    requires IsLikelyPinyin(s)
    ensures s != []
  {
  }

  /** The loop that finds the pinyin, skipping empty tokens and the Hanzi. */
  method FindPinyin(parts: seq<string>, hanzi: string) returns (pinyin: string)
    ensures pinyin == FirstPinyin(parts, hanzi)
  {
    pinyin := [];
    var i := 0;
    while i < |parts|
      invariant 0 <= i <= |parts|
      invariant i <= PinyinIndex(parts, hanzi)
    {
      var tok := parts[i];
      if tok == [] {
        SkipToken(parts, hanzi, i);
        i := i + 1;
        continue;
      }
      var t := CleanSpaces(tok);
      if t == hanzi {
        SkipToken(parts, hanzi, i);
        i := i + 1;
        continue;
      }
      if IsLikelyPinyin(t) {
        assert PinyinIndex(parts, hanzi) == i;
        pinyin := t;
        return;
      }
      SkipToken(parts, hanzi, i);
      i := i + 1;
    }
    assert PinyinIndex(parts, hanzi) == |parts|;
  }

  /** A token the search passes over is before the picked one. */
  lemma SkipToken(parts: seq<string>, hanzi: string, i: nat)
    requires i < |parts| && i <= PinyinIndex(parts, hanzi)
    requires parts[i] == [] || CleanSpaces(parts[i]) == hanzi || !IsLikelyPinyin(CleanSpaces(parts[i]))
    ensures i + 1 <= PinyinIndex(parts, hanzi)
  {
    assert !PicksPinyin(hanzi)(parts[i]);
  }

  /** The step of `parts.map(cleanSpaces).filter(Boolean).filter(t => t !== hanzi &&
      t !== pinyin)` for one token. */
  function RestPick(hanzi: string, pinyin: string): string -> Option<string> {
    tok => var t := CleanSpaces(tok);
      if t != [] && t != hanzi && t != pinyin then Some(t) else None
  }

  /** The tokens that are neither the Hanzi nor the pinyin, cleaned, in order. */
  function Rest(parts: seq<string>, hanzi: string, pinyin: string): seq<string> {
    FilterMap(parts, RestPick(hanzi, pinyin))
  }

  /** Each remaining token is a cleaned token of the line, not empty, and neither the
      Hanzi nor the pinyin; every such cleaned token remains. */
  lemma RestTokens(parts: seq<string>, hanzi: string, pinyin: string)
    ensures forall t :: t in Rest(parts, hanzi, pinyin) ==>
      t != [] && t != hanzi && t != pinyin && exists j :: 0 <= j < |parts| && t == CleanSpaces(parts[j])
    ensures forall j :: 0 <= j < |parts| ==>
      var t := CleanSpaces(parts[j]);
      (t != [] && t != hanzi && t != pinyin) ==> t in Rest(parts, hanzi, pinyin)
  {
    var f := RestPick(hanzi, pinyin);
    forall t | t in Rest(parts, hanzi, pinyin)
      ensures t != [] && t != hanzi && t != pinyin && exists j :: 0 <= j < |parts| && t == CleanSpaces(parts[j])
    {
      FilterMapFrom(parts, f, t);
    }
    forall j | 0 <= j < |parts| && f(parts[j]).Some?
      ensures f(parts[j]).value in Rest(parts, hanzi, pinyin)
    {
      FilterMapCovers(parts, f, j);
    }
  }

  function GlossPick(t: string): Option<string> {
    if IsGloss(t) then Some(t) else None
  }

  /** `rest.filter(s => /^[…]+$/u.test(s))`. */
  function Glosses(rest: seq<string>): seq<string> {
    FilterMap(rest, GlossPick)
  }

  /** The English: the gloss-like remaining tokens if there are any, else all of them,
      joined by spaces. */
  function English(parts: seq<string>, hanzi: string, pinyin: string): string {
    var rest := Rest(parts, hanzi, pinyin);
    var ascii := Glosses(rest);
    CleanSpaces(Join(if ascii != [] then ascii else rest, " "))
  }

  /** The English is empty exactly when no token remains besides the Hanzi and the
      pinyin; when one of them is gloss-like, only gloss-like tokens make it up. */
  lemma EnglishFrom(parts: seq<string>, hanzi: string, pinyin: string)
    ensures English(parts, hanzi, pinyin) == [] <==> Rest(parts, hanzi, pinyin) == []
    ensures Glosses(Rest(parts, hanzi, pinyin)) != [] ==>
      English(parts, hanzi, pinyin) == CleanSpaces(Join(Glosses(Rest(parts, hanzi, pinyin)), " ")) &&
      forall t :: t in Glosses(Rest(parts, hanzi, pinyin)) ==> IsGloss(t) && t in Rest(parts, hanzi, pinyin)
  {
    var rest := Rest(parts, hanzi, pinyin);
    GlossesFromRest(rest);
    EnglishNonEmpty(parts, hanzi, pinyin);
  }

  /** Every gloss is a gloss-like remaining token. */
  lemma GlossesFromRest(rest: seq<string>)
    ensures forall t :: t in Glosses(rest) ==> IsGloss(t) && t in rest
  {
    forall t | t in Glosses(rest) ensures IsGloss(t) && t in rest {
      FilterMapFrom(rest, GlossPick, t);
    }
  }

  /** The English is empty exactly when no token remains. */
  lemma EnglishNonEmpty(parts: seq<string>, hanzi: string, pinyin: string)
    ensures English(parts, hanzi, pinyin) == [] <==> Rest(parts, hanzi, pinyin) == []
  {
    var rest := Rest(parts, hanzi, pinyin);
    var ascii := Glosses(rest);
    var sel := if ascii != [] then ascii else rest;
    if sel != [] {
      GlossesFromRest(rest);
      assert sel[0] in rest;
      RestTokens(parts, hanzi, pinyin);
      var j :| 0 <= j < |parts| && sel[0] == CleanSpaces(parts[j]);
      CleanJoinNonEmpty(sel);
    } else {
      assert Join(sel, " ") == [];
    }
  }

  /** Joining tokens whose first one starts with a non-space character, then cleaning,
      leaves something. */
  lemma CleanJoinNonEmpty(sel: seq<string>)
    requires sel != [] && sel[0] != [] && !IsSpace(sel[0][0])
    ensures CleanSpaces(Join(sel, " ")) != []
  {
    var joined := Join(sel, " ");
    if |sel| >= 2 { JoinFirst(sel, " "); }
    assert joined[0] == sel[0][0];
    CollapseKeeps(joined, 0);
    TrimKeepsNonSpace(CollapseRuns(joined), joined[0]);
  }

  datatype Row = Row(hanzi: string, pinyin: string, english: string)

  /** The row one line gives, if all three fields are found. */
  function ParseLine(line: string): (r: Option<Row>)
    ensures r.Some? ==> r.value.hanzi != [] && r.value.pinyin != [] && r.value.english != []
    ensures r.Some? ==> HasHan(r.value.hanzi) && r.value.pinyin != r.value.hanzi && IsLikelyPinyin(r.value.pinyin)
  {
    var parts := Tokenize(line);
    var hanzi := FirstHanzi(parts);
    var pinyin := FirstPinyin(parts, hanzi);
    var english := English(parts, hanzi, pinyin);
    if hanzi != [] && pinyin != [] && english != [] then Some(Row(hanzi, pinyin, english)) else None
  }

  /** A line gives a row exactly when some token contains a Han character, some token is
      picked as pinyin, and some other non-empty token remains. */
  lemma ParseLineKeeps(line: string)
    ensures var parts := Tokenize(line); var h := FirstHanzi(parts); var p := FirstPinyin(parts, h);
      ParseLine(line).Some? <==>
        ((exists k :: 0 <= k < |parts| && HasHan(parts[k])) &&
         (exists k :: 0 <= k < |parts| && PinyinPick(parts[k], h)) &&
         Rest(parts, h, p) != [])
  {
    var parts := Tokenize(line);
    var h := FirstHanzi(parts);
    EnglishFrom(parts, h, FirstPinyin(parts, h));
  }

  /** The loop body for one line. */
  method ParseRow(line: string) returns (r: Option<Row>)
    ensures r == ParseLine(line)
  {
    var parts := Tokenize(line);
    var hanzi := FindHanzi(parts);
    var pinyin := FindPinyin(parts, hanzi);
    var english := English(parts, hanzi, pinyin);
    if hanzi != [] && pinyin != [] && english != [] {
      r := Some(Row(hanzi, pinyin, english));
    } else {
      r := None;
    }
  }

  // ---------------------------------------------------------------------------
  // parseLinesToVocab (30-37, 71-76)

  /** The map-and-filter step for one line: trimmed, and dropped when empty.  Splitting
      at `\n` and trimming gives the same lines as splitting at `\r?\n` and trimming,
      since a carriage return is white space. */
  function LineOf(s: string): Option<string> {
    var t := Trim(s);
    if t != [] then Some(t) else None
  }

  /** The non-blank lines of the input, trimmed, in order. */
  function Lines(raw: string): (r: seq<string>)
    ensures forall k :: 0 <= k < |r| ==> r[k] != [] && Trimmed(r[k])
  {
    LinesKept(SplitOn(raw, '\n'));
    FilterMap(SplitOn(raw, '\n'), LineOf)
  }

  /** What the map-and-filter step keeps is trimmed and non-empty. */
  lemma LinesKept(pieces: seq<string>)
    ensures forall k :: 0 <= k < |FilterMap(pieces, LineOf)| ==>
      FilterMap(pieces, LineOf)[k] != [] && Trimmed(FilterMap(pieces, LineOf)[k])
  {
    var r := FilterMap(pieces, LineOf);
    forall k | 0 <= k < |r| ensures r[k] != [] && Trimmed(r[k]) {
      assert r[k] in r;
      FilterMapFrom(pieces, LineOf, r[k]);
      var i :| 0 <= i < |pieces| && LineOf(pieces[i]) == Some(r[k]);
    }
  }

  /** The rows of a text: one per usable line, in line order. */
  function Rows(rawText: string): seq<Row> {
    FilterMap(Lines(rawText), ParseLine)
  }

  /** `parseLinesToVocab(rawText)`. */
  method ParseLinesToVocab(rawText: string) returns (out: seq<Row>)
    ensures out == Rows(rawText)
  {
    var lines := Lines(rawText);
    out := ParseEach(lines);
  }

  /** The loop over the lines, pushing each row found. */
  method ParseEach(lines: seq<string>) returns (out: seq<Row>)
    ensures out == FilterMap(lines, ParseLine)
  {
    out := [];
    var i := 0;
    while i < |lines|
      invariant 0 <= i <= |lines|
      invariant out == FilterMap(lines[..i], ParseLine)
    {
      var row := ParseRow(lines[i]);
      FilterMapSnoc(lines, i, ParseLine);
      if row.Some? {
        out := out + [row.value];
      }
      i := i + 1;
    }
    assert lines[..i] == lines;
  }

  /** Every row comes from a line, and every line that yields a row contributes it. */
  lemma RowsFromLines(rawText: string)
    ensures forall row :: row in Rows(rawText) ==>
      exists k :: 0 <= k < |Lines(rawText)| && ParseLine(Lines(rawText)[k]) == Some(row)
    ensures forall k :: 0 <= k < |Lines(rawText)| && ParseLine(Lines(rawText)[k]).Some? ==>
      ParseLine(Lines(rawText)[k]).value in Rows(rawText)
  {
    var ls := Lines(rawText);
    forall row | row in FilterMap(ls, ParseLine)
      ensures exists k :: 0 <= k < |ls| && ParseLine(ls[k]) == Some(row)
    {
      FilterMapFrom(ls, ParseLine, row);
    }
    forall k | 0 <= k < |ls| && ParseLine(ls[k]).Some?
      ensures ParseLine(ls[k]).value in FilterMap(ls, ParseLine)
    {
      FilterMapCovers(ls, ParseLine, k);
    }
  }

  // ---------------------------------------------------------------------------
  // The paste preview (88-93)

  /** The rows shown while pasting: none for blank text, else the first fifty rows. */
  function PastePreview(raw: string): (r: seq<Row>)
    ensures |r| <= 50
    ensures Trim(raw) == [] ==> r == []
    ensures Trim(raw) != [] ==> |r| == if |Rows(raw)| <= 50 then |Rows(raw)| else 50
    ensures Trim(raw) != [] ==> r == Rows(raw)[..|r|]
  {
    if Trim(raw) == [] then []
    else
      var all := Rows(raw);
      if |all| <= 50 then all else all[..50]
  }
}

/** The conversation view (`src/components/Conversation.jsx`): `parseSegments`, which
    pairs the tutor's Chinese sentences with their pinyin and gathers the English; the
    upsert of realtime transcripts into the chat; and the message window of `callGPT`.
    `hanziToPinyin` is the parameter `auto`. */
module Conversation {
  import opened Wrappers
  import opened Text
  import opened Json
  import opened Lists

  // ---------------------------------------------------------------------------
  // Script tests (17-19)

  /** `hasTone`: a tone-marked vowel, or a run of letters (with `ü` and `v`) ending in
      a tone digit 1-4 between word boundaries. */
  predicate HasTone(s: string) {
    HasToneVowel(s) || HasToneNumber(s, true, '4')
  }

  predicate IsSentenceEnd(c: char) {
    c == '。' || c == '！' || c == '？' || c == '.' || c == '!' || c == '?'
  }

  // ---------------------------------------------------------------------------
  // Preparing the text (24-38)

  /** `String(rawText || "").replace(/\r/g, "").trim()`. */
  function Prepare(rawText: string): (raw: string)
    ensures Trimmed(raw)
    ensures '\r' !in raw
  {
    var r := RemoveCR(rawText);
    TrimSubset(r);
    Trim(r)
  }

  function RemoveCR(s: string): (r: string)
    ensures '\r' !in r
    ensures forall c :: c in r ==> c in s
  {
    if s == [] then [] else (if s[0] == '\r' then [] else [s[0]]) + RemoveCR(s[1..])
  }

  lemma TrimSubset(s: string)
    ensures forall c :: c in Trim(s) ==> c in s
  {
    var t := TrimStart(s);
    assert forall c :: c in t ==> c in s;
    assert forall c :: c in TrimEnd(t) ==> c in t;
  }

  /** `raw.split(/(?<=[。！？.!?])\s+/)`: the text is cut at every whitespace run that
      follows a sentence end, and the run is dropped.  `cur` is the piece read so far;
      its last character is the one the look-behind inspects. */
  function Sentences(s: string, cur: string): (r: seq<string>)
    ensures r != []
    decreases |s|
  {
    if s == [] then [cur]
    else if IsSpace(s[0]) && cur != [] && IsSentenceEnd(cur[|cur| - 1]) then
      [cur] + Sentences(TrimStart(s[1..]), [])
    else Sentences(s[1..], cur + [s[0]])
  }

  const HanziLabels: seq<string> := ["hanzi", "汉字"]
  const PinyinLabels: seq<string> := ["pinyin", "拼音"]
  const EnglishLabels: seq<string> := ["english", "译文", "翻译"]

  /** What is left after `tag`, optional spaces, a colon (`:` or `：`) and optional
      spaces at the start of `s`, compared without regard to ASCII case. */
  function LabelRest(s: string, tag: string): Option<string> {
    if |tag| <= |s| && Lower(s[..|tag|]) == tag then
      var t := TrimStart(s[|tag|..]);
      if t != [] && (t[0] == ':' || t[0] == '：') then Some(TrimStart(t[1..])) else None
    else None
  }

  /** `s.replace(/^(L1|L2|…)\s*[:：]\s*\/i, "")`: the first alternative that matches is removed. */
  function DropLabel(s: string, labels: seq<string>): string
    decreases |labels|
  {
    if labels == [] then s
    else match LabelRest(s, labels[0])
      case Some(rest) => rest
      case None => DropLabel(s, labels[1..])
  }

  /** `stripLabel`: the three label prefixes, in order, then `trim`. */
  function StripLabel(s: string): (r: string)
    ensures Trimmed(r)
  {
    Trim(DropLabel(DropLabel(DropLabel(s, HanziLabels), PinyinLabels), EnglishLabels))
  }

  /** The map-and-filter step for one sentence. */
  function LabelStripped(s: string): Option<string> {
    var t := StripLabel(s);
    if t != [] then Some(t) else None
  }

  /** `parts`: the sentences with their labels stripped, empty ones dropped. */
  function Parts(raw: string): seq<string> {
    FilterMap(Sentences(raw, []), LabelStripped)
  }

  // ---------------------------------------------------------------------------
  // The sentence loop (40-70)

  datatype Seg = Seg(hanzi: string, pinyin: string)

  /** The segments and English pieces the loop has built. */
  datatype Scanned = Scanned(segs: seq<Seg>, bits: seq<string>)

  /** The characters kept for speech: Han characters and the CJK punctuation
      `，。！？、；：“”（）《》…`. */
  predicate IsSpeechChar(c: char) {
    IsHan(c) || c == '，' || c == '。' || c == '！' || c == '？' || c == '、' || c == '；' ||
    c == '：' || c == '“' || c == '”' || c == '（' || c == '）' || c == '《' || c == '》' || c == '…'
  }

  /** The Hanzi of a Han sentence.  No kept character is white space, so the source's
      removal of white space and `trim` that follow change nothing and are omitted. */
  function HanziOf(s: string): (r: string)
    ensures forall k :: 0 <= k < |r| ==> IsSpeechChar(r[k])
    ensures HasHan(s) ==> r != []
  {
    if s == [] then []
    else (if IsSpeechChar(s[0]) then [s[0]] else []) + HanziOf(s[1..])
  }

  /** `s.replace(/[。！？.!?]+$/u, "")`: the trailing run of sentence ends is removed. */
  function DropEnds(s: string): (r: string)
    ensures |r| <= |s| && r == s[..|r|]
    ensures forall k :: |r| <= k < |s| ==> IsSentenceEnd(s[k])
  {
    if s != [] && IsSentenceEnd(s[|s| - 1]) then DropEnds(s[..|s| - 1]) else s
  }

  /** The pinyin of a pinyin-only sentence. */
  function CleanPinyin(s: string): string {
    Trim(DropEnds(s))
  }

  /** `current.pinyin ? current.pinyin + " " + clean : clean`. */
  function Attach(pinyin: string, clean: string): string {
    if pinyin != [] then pinyin + " " + clean else clean
  }

  predicate IsPinyinOnly(s: string) { !HasHan(s) && HasTone(s) }
  predicate IsEnglishish(s: string) { !HasHan(s) && !HasTone(s) }

  /** One round of the loop. */
  function ScanStep(st: Scanned, s: string): Scanned {
    if HasHan(s) then
      var h := HanziOf(s);
      if h != [] then Scanned(st.segs + [Seg(h, "")], st.bits) else st
    else if HasTone(s) then
      if st.segs != [] then
        var n := |st.segs| - 1;
        Scanned(st.segs[n := Seg(st.segs[n].hanzi, Attach(st.segs[n].pinyin, CleanPinyin(s)))], st.bits)
      else st
    else Scanned(st.segs, st.bits + [Trim(s)])
  }

  /** The state after the loop has read `parts`. */
  function Scan(parts: seq<string>): Scanned {
    if parts == [] then Scanned([], [])
    else ScanStep(Scan(parts[..|parts| - 1]), parts[|parts| - 1])
  }

  /** The loop of `parseSegments`; `lastIdx` always designates the newest segment. */
  method ScanParts(parts: seq<string>) returns (segs: seq<Seg>, englishBits: seq<string>)
    ensures Scanned(segs, englishBits) == Scan(parts)
  {
    segs := [];
    englishBits := [];
    var lastIdx := -1;
    var i := 0;
    while i < |parts|
      invariant 0 <= i <= |parts|
      invariant lastIdx == |segs| - 1
      invariant Scanned(segs, englishBits) == Scan(parts[..i])
    {
      ghost var before := Scanned(segs, englishBits);
      var s := parts[i];
      var isHan := HasHan(s);
      var isPinyinOnly := !isHan && HasTone(s);
      var isEnglishish := !isHan && !HasTone(s);
      if isHan {
        var hanzi := HanziOf(s);
        if hanzi != [] {
          segs := segs + [Seg(hanzi, "")];
          lastIdx := |segs| - 1;
        }
      } else if isPinyinOnly {
        if lastIdx >= 0 {
          var current := segs[lastIdx];
          var clean := CleanPinyin(s);
          segs := segs[lastIdx := Seg(current.hanzi, Attach(current.pinyin, clean))];
        }
      } else if isEnglishish {
        englishBits := englishBits + [Trim(s)];
      }
      assert Scanned(segs, englishBits) == ScanStep(before, s);
      ScanSnoc(parts, i);
      i := i + 1;
    }
    assert parts[..i] == parts;
  }

  /** Reading one more sentence is one more round. */
  lemma ScanSnoc(parts: seq<string>, i: nat)
    requires i < |parts|
    ensures Scan(parts[..i + 1]) == ScanStep(Scan(parts[..i]), parts[i])
  {
    assert parts[..i + 1][..i] == parts[..i];
  }

  // ---------------------------------------------------------------------------
  // The three-line fallback (72-83)

  /** `xs.find(p)`. */
  function Find(xs: seq<string>, p: string -> bool): (r: Option<string>)
    ensures r.Some? ==> r.value in xs && p(r.value)
    ensures r.None? ==> forall k :: 0 <= k < |xs| ==> !p(xs[k])
  {
    if xs == [] then None else if p(xs[0]) then Some(xs[0]) else Find(xs[1..], p)
  }

  /** The map-and-filter step for one line. */
  function LineStripped(s: string): Option<string> {
    LabelStripped(Trim(s))
  }

  /** Used when no sentence gave a segment: the first Han line becomes the only segment,
      with the first pinyin-only line as its pinyin, and the first English-ish line is
      added to the English.  `stripLabel` already trims, so the source's further
      `trim` calls are omitted. */
  function Fallback(raw: string, bits: seq<string>): (r: Scanned)
    ensures |r.segs| <= 1
    ensures r.segs != [] ==> HasHan(r.segs[0].hanzi)
    ensures r.bits == bits || (|r.bits| == |bits| + 1 && r.bits[..|bits|] == bits)
  {
    var lines := FilterMap(SplitOn(raw, '\n'), LineStripped);
    var han := Find(lines, HasHan);
    var pin := Find(lines, IsPinyinOnly);
    var eng := Find(lines, IsEnglishish);
    Scanned(if han.Some? then [Seg(han.value, if pin.Some? then pin.value else "")] else [],
            bits + (if eng.Some? then [eng.value] else []))
  }

  // ---------------------------------------------------------------------------
  // Pinyin hydration (85-98) and the result (101)

  /** The segment with its final pinyin: `auto` wins whenever it has non-space content
      that differs from the given pinyin once white space is ignored.  So, ignoring white
      space, the result is `auto`'s pinyin whenever that has content and the given one
      otherwise, and it is always one of the two. */
  function Hydrate(seg: Seg, auto: string -> string): (h: Seg)
    ensures h.hanzi == seg.hanzi
    ensures h.pinyin == auto(seg.hanzi) || h.pinyin == CleanSpaces(seg.pinyin)
    ensures RemoveSpaces(h.pinyin) ==
      if RemoveSpaces(auto(seg.hanzi)) != [] then RemoveSpaces(auto(seg.hanzi))
      else RemoveSpaces(CleanSpaces(seg.pinyin))
  {
    var existing := CleanSpaces(seg.pinyin);
    var a := auto(seg.hanzi);
    var normExisting := RemoveSpaces(existing);
    var normAuto := RemoveSpaces(a);
    var finalPinyin :=
      if normAuto != [] && normAuto != normExisting then a
      else if normExisting == [] && normAuto != [] then a
      else existing;
    Seg(seg.hanzi, finalPinyin)
  }

  function Hydrated(segs: seq<Seg>, auto: string -> string): (r: seq<Seg>)
    ensures |r| == |segs|
    ensures forall k :: 0 <= k < |segs| ==> r[k] == Hydrate(segs[k], auto)
  {
    seq(|segs|, k requires 0 <= k < |segs| => Hydrate(segs[k], auto))
  }

  datatype Parsed = Parsed(segs: seq<Seg>, english: string)

  /** `parseSegments(rawText)`. */
  function Parse(rawText: string, auto: string -> string): Parsed {
    var raw := Prepare(rawText);
    var st := Scan(Parts(raw));
    var fin := if st.segs == [] then Fallback(raw, st.bits) else st;
    Parsed(Hydrated(fin.segs, auto), Trim(Join(fin.bits, " ")))
  }

  method ParseSegments(rawText: string, auto: string -> string) returns (r: Parsed)
    ensures r == Parse(rawText, auto)
  {
    var raw := Prepare(rawText);
    var segs, englishBits := ScanParts(Parts(raw));
    if |segs| == 0 {
      var fb := Fallback(raw, englishBits);
      segs, englishBits := fb.segs, fb.bits;
    }
    r := Parsed(Hydrated(segs, auto), Trim(Join(englishBits, " ")));
  }

  // ---------------------------------------------------------------------------
  // Properties of parseSegments

  /** The Hanzi a sentence contributes, if it is Han. */
  function HanziPart(s: string): Option<string> {
    if HasHan(s) then Some(HanziOf(s)) else None
  }

  /** The English piece a sentence contributes, if it is English-ish. */
  function EnglishPart(s: string): Option<string> {
    if IsEnglishish(s) then Some(Trim(s)) else None
  }

  /** One segment per Han sentence, in order, holding that sentence's Hanzi. */
  lemma {:induction false} ScanSegments(parts: seq<string>)
    ensures var st := Scan(parts); var hs := FilterMap(parts, HanziPart);
      |st.segs| == |hs| && (forall k :: 0 <= k < |hs| ==> st.segs[k].hanzi == hs[k])
  {
    if parts != [] {
      var n := |parts| - 1;
      ScanSegments(parts[..n]);
      assert Scan(parts) == ScanStep(Scan(parts[..n]), parts[n]);
      StepSegments(Scan(parts[..n]), parts[n]);
      assert parts[..n + 1] == parts;
      FilterMapSnoc(parts, n, HanziPart);
    }
  }

  /** One round adds a segment exactly for a Han sentence and keeps every Hanzi. */
  lemma StepSegments(st: Scanned, p: string)
    ensures var r := ScanStep(st, p).segs; var n := |st.segs|;
      |r| == n + (if HanziPart(p).Some? then 1 else 0) &&
      (forall k :: 0 <= k < n ==> r[k].hanzi == st.segs[k].hanzi) &&
      (HanziPart(p).Some? ==> r[n].hanzi == HanziPart(p).value)
  {
    if HasHan(p) {
      StepHan(st, p);
    } else {
      StepOther(st, p);
    }
  }

  lemma StepHan(st: Scanned, p: string)
    requires HasHan(p)
    ensures ScanStep(st, p).segs == st.segs + [Seg(HanziOf(p), "")]
  {
  }

  lemma StepOther(st: Scanned, p: string)
    requires !HasHan(p)
    ensures |ScanStep(st, p).segs| == |st.segs|
    ensures forall k :: 0 <= k < |st.segs| ==> ScanStep(st, p).segs[k].hanzi == st.segs[k].hanzi
  {
    if HasTone(p) && st.segs != [] {
      var n := |st.segs| - 1;
      var r := st.segs[n := Seg(st.segs[n].hanzi, Attach(st.segs[n].pinyin, CleanPinyin(p)))];
      assert ScanStep(st, p).segs == r;
      assert forall k :: 0 <= k < |st.segs| ==> r[k].hanzi == st.segs[k].hanzi;
    } else {
      assert ScanStep(st, p).segs == st.segs;
    }
  }

  /** The English pieces are the English-ish sentences, trimmed, in order. */
  lemma {:induction false} ScanEnglish(parts: seq<string>)
    ensures Scan(parts).bits == FilterMap(parts, EnglishPart)
  {
    if parts != [] {
      var n := |parts| - 1;
      ScanEnglish(parts[..n]);
      assert parts[..n + 1] == parts;
      FilterMapSnoc(parts, n, EnglishPart);
    }
  }

  /** Every segment the sentence loop builds carries a non-empty Hanzi made only of
      Han characters and CJK punctuation. */
  lemma {:induction false} ScanHanzi(parts: seq<string>)
    ensures forall k :: 0 <= k < |Scan(parts).segs| ==>
      Scan(parts).segs[k].hanzi != [] &&
      forall i :: 0 <= i < |Scan(parts).segs[k].hanzi| ==> IsSpeechChar(Scan(parts).segs[k].hanzi[i])
  {
    if parts != [] {
      ScanHanzi(parts[..|parts| - 1]);
    }
  }

  /** The pinyin-only sentences since the latest Han sentence, cleaned. */
  function PinyinTail(parts: seq<string>): seq<string> {
    if parts == [] then []
    else
      var p := parts[|parts| - 1];
      var init := PinyinTail(parts[..|parts| - 1]);
      if HasHan(p) then [] else if HasTone(p) then init + [CleanPinyin(p)] else init
  }

  /** A pinyin-only sentence leaves something once its trailing sentence ends and white
      space are removed. */
  lemma CleanPinyinNonEmpty(s: string)
    requires HasTone(s)
    ensures CleanPinyin(s) != []
  {
    var d := DropEnds(s);
    var c: char;
    if HasToneVowel(s) {
      var i :| 0 <= i < |s| && IsToneVowel(s[i]);
      ToneVowelRange(s[i]);
      assert i < |d|;
      c := d[i];
      assert IsToneVowel(c);
    } else {
      var i, j :| 0 <= i < j < |s| && ToneNumberAt(s, i, j, true, '4');
      assert i < |d|;
      c := d[j];
      assert '1' <= c <= '4';
    }
    ToneVowelRange(c);
    TrimKeepsNonSpace(d, c);
  }

  /** The tone-marked vowels lie between `À` and `ǜ`. */
  lemma ToneVowelRange(c: char)
    ensures IsToneVowel(c) ==> '\U{00C0}' <= c <= '\U{01DC}'
  {
  }

  lemma {:induction false} PinyinTailNonEmpty(parts: seq<string>)
    ensures forall k :: 0 <= k < |PinyinTail(parts)| ==> PinyinTail(parts)[k] != []
  {
    if parts != [] {
      var p := parts[|parts| - 1];
      PinyinTailNonEmpty(parts[..|parts| - 1]);
      if !HasHan(p) && HasTone(p) {
        CleanPinyinNonEmpty(p);
      }
    }
  }

  /** The newest segment's pinyin is the pinyin-only sentences read since its Han
      sentence, cleaned and joined by single spaces. */
  lemma {:induction false} LastPinyin(parts: seq<string>)
    requires Scan(parts).segs != []
    ensures var segs := Scan(parts).segs;
      segs[|segs| - 1].pinyin == Join(PinyinTail(parts), " ")
    decreases |parts|, 1
  {
    var n := |parts| - 1;
    var init := parts[..n];
    var p := parts[n];
    assert parts == init + [p];
    if HasHan(p) {
      HanExtends(init, p);
    } else if HasTone(p) {
      PinyinStep(init, p, parts);
    } else {
      EnglishStep(init, p, parts);
    }
  }

  /** An English-ish sentence keeps the newest pinyin and the tail. */
  lemma EnglishStep(init: seq<string>, p: string, parts: seq<string>)
    requires parts == init + [p] && IsEnglishish(p)
    requires Scan(parts).segs != []
    ensures var segs := Scan(parts).segs;
      segs[|segs| - 1].pinyin == Join(PinyinTail(parts), " ")
    decreases |parts|, 0
  {
    EnglishExtends(init, p);
    LastPinyin(init);
  }

  /** A Han sentence starts a segment without pinyin and empties the tail. */
  lemma HanExtends(init: seq<string>, p: string)
    requires HasHan(p)
    ensures var segs := Scan(init + [p]).segs; segs != [] && segs[|segs| - 1].pinyin == []
    ensures PinyinTail(init + [p]) == []
  {
    assert (init + [p])[..|init|] == init;
  }

  /** An English-ish sentence changes neither the segments nor the tail. */
  lemma EnglishExtends(init: seq<string>, p: string)
    requires IsEnglishish(p)
    ensures Scan(init + [p]).segs == Scan(init).segs
    ensures PinyinTail(init + [p]) == PinyinTail(init)
  {
    assert (init + [p])[..|init|] == init;
  }

  /** A pinyin-only sentence after a Han one: the newest pinyin grows by it. */
  lemma PinyinStep(init: seq<string>, p: string, parts: seq<string>)
    requires parts == init + [p] && !HasHan(p) && HasTone(p)
    requires Scan(parts).segs != []
    ensures var segs := Scan(parts).segs;
      segs[|segs| - 1].pinyin == Join(PinyinTail(parts), " ")
    decreases |parts|, 0
  {
    PinyinExtends(init, p);
    LastPinyin(init);
    PinyinTailNonEmpty(init);
    AttachJoin(PinyinTail(init), CleanPinyin(p));
  }

  /** What one pinyin-only sentence does to the newest pinyin and to the tail. */
  lemma PinyinExtends(init: seq<string>, p: string)
    requires IsPinyinOnly(p) && Scan(init + [p]).segs != []
    ensures Scan(init).segs != []
    ensures var segs := Scan(init + [p]).segs; var before := Scan(init).segs;
      segs[|segs| - 1].pinyin == Attach(before[|before| - 1].pinyin, CleanPinyin(p))
    ensures PinyinTail(init + [p]) == PinyinTail(init) + [CleanPinyin(p)]
  {
    assert (init + [p])[..|init|] == init;
  }

  /** Attaching one more piece to the join of non-empty pieces joins it too. */
  lemma AttachJoin(t: seq<string>, c: string)
    requires forall k :: 0 <= k < |t| ==> t[k] != []
    ensures Attach(Join(t, " "), c) == Join(t + [c], " ")
  {
    JoinAppend(t, c, " ");
    JoinEmptyIffAllEmpty(t, " ");
  }

  /** A new sentence never changes a segment other than the newest one. */
  lemma EarlierSegmentsFixed(parts: seq<string>, p: string, k: nat)
    requires k + 1 < |Scan(parts).segs|
    ensures k < |Scan(parts + [p]).segs| && Scan(parts + [p]).segs[k] == Scan(parts).segs[k]
  {
    assert (parts + [p])[..|parts|] == parts;
  }

  /** A pinyin-only sentence before any Han sentence is dropped. */
  lemma PinyinWithoutHanzi(parts: seq<string>, p: string)
    requires Scan(parts).segs == [] && IsPinyinOnly(p)
    ensures Scan(parts + [p]) == Scan(parts)
  {
    assert (parts + [p])[..|parts|] == parts;
  }

  /** When some sentence is Han, the result has one segment per Han sentence, in order;
      otherwise the fallback gives at most one.  The English is the English-ish pieces
      joined by spaces. */
  lemma ParseShape(rawText: string, auto: string -> string)
    ensures var parts := Parts(Prepare(rawText)); var r := Parse(rawText, auto);
      var hs := FilterMap(parts, HanziPart);
      (hs != [] ==> |r.segs| == |hs| && (forall k :: 0 <= k < |hs| ==> r.segs[k].hanzi == hs[k]) &&
                    r.english == Trim(Join(FilterMap(parts, EnglishPart), " "))) &&
      (hs == [] ==> |r.segs| <= 1)
  {
    ScanSegments(Parts(Prepare(rawText)));
    ScanEnglish(Parts(Prepare(rawText)));
  }

  /** When no sentence is Han, the fallback's English-ish line is appended to the English
      pieces the sentence loop already collected, whether or not it is one of them. */
  lemma FallbackEnglish(rawText: string, auto: string -> string)
    requires FilterMap(Parts(Prepare(rawText)), HanziPart) == []
    ensures var raw := Prepare(rawText);
      var eng := Find(FilterMap(SplitOn(raw, '\n'), LineStripped), IsEnglishish);
      Parse(rawText, auto).english ==
        Trim(Join(FilterMap(Parts(raw), EnglishPart) + (if eng.Some? then [eng.value] else []), " "))
  {
    ScanSegments(Parts(Prepare(rawText)));
    ScanEnglish(Parts(Prepare(rawText)));
  }

  /** So a one-word English reply is repeated: "Thanks!" gives the English
      "Thanks! Thanks!". */
  lemma FallbackRepeatsEnglish(rawText: string, auto: string -> string)
    requires NoSpace(Prepare(rawText))
    requires StripLabel(Prepare(rawText)) != [] && IsEnglishish(StripLabel(Prepare(rawText)))
    ensures var e := StripLabel(Prepare(rawText)); Parse(rawText, auto).english == e + " " + e
  {
    var raw := Prepare(rawText);
    var e := StripLabel(raw);
    OneWordParts(raw);
    EnglishPieces(e);
    FallbackEnglish(rawText, auto);
    JoinTwice(e);
  }

  /** The pieces one English-ish sentence gives. */
  lemma EnglishPieces(e: string)
    requires e != [] && Trimmed(e) && IsEnglishish(e)
    ensures FilterMap([e], HanziPart) == []
    ensures FilterMap([e], EnglishPart) + [e] == [e, e]
    ensures Find([e], IsEnglishish) == Some(e)
  {
    TrimmedIsFixed(e);
    assert HanziPart(e) == None;
    assert EnglishPart(e) == Some(e);
    FilterMapOne(e, HanziPart);
    FilterMapOne(e, EnglishPart);
  }

  /** A text without white space is a single sentence and a single line. */
  lemma OneWordParts(raw: string)
    requires Trimmed(raw) && NoSpace(raw) && StripLabel(raw) != []
    ensures Parts(raw) == [StripLabel(raw)]
    ensures FilterMap(SplitOn(raw, '\n'), LineStripped) == [StripLabel(raw)]
  {
    SentencesNoSpace(raw, []);
    assert [] + raw == raw;
    assert SplitOn(raw, '\n') == [raw];
    TrimmedIsFixed(raw);
    assert LineStripped(raw) == Some(StripLabel(raw));
  }

  lemma JoinTwice(e: string)
    requires e != [] && Trimmed(e)
    ensures Trim(Join([e, e], " ")) == e + " " + e
  {
    assert [e, e][1..] == [e];
    TrimNoEdgeSpace(e + " " + e);
  }

  /** Without white space there is nowhere to cut. */
  lemma {:induction false} SentencesNoSpace(s: string, cur: string)
    requires NoSpace(s)
    ensures Sentences(s, cur) == [cur + s]
    decreases |s|
  {
    if s == [] {
      assert cur + s == cur;
    } else {
      assert !IsSpace(s[0]);
      assert NoSpace(s[1..]) by {
        forall i | 0 <= i < |s[1..]| ensures !IsSpace(s[1..][i]) { assert s[1..][i] == s[i + 1]; }
      }
      SentencesNoSpace(s[1..], cur + [s[0]]);
      assert (cur + [s[0]]) + s[1..] == cur + s;
    }
  }

  // ---------------------------------------------------------------------------
  // The realtime-transcript upsert in onRealtimeTranscript (134-169)

  /** A chat message; `rid` and `final` are the realtime id and flag, absent on messages
      that did not come from a realtime transcript. */
  datatype Msg = Msg(role: string, content: string, rid: Option<Json>, final: bool)

  const RealtimePrefix: string := "【Realtime】 "

  /** `prev.findIndex(m => m?.realtimeId === id)`, or -1. */
  function FindIndex(chat: seq<Msg>, id: Json): (r: int)
    ensures -1 <= r < |chat|
    ensures r >= 0 ==> chat[r].rid == Some(id) && forall k :: 0 <= k < r ==> chat[k].rid != Some(id)
    ensures r == -1 ==> forall k :: 0 <= k < |chat| ==> chat[k].rid != Some(id)
  {
    if chat == [] then -1
    else if chat[0].rid == Some(id) then 0
    else var k := FindIndex(chat[1..], id); if k == -1 then -1 else k + 1
  }

  /** The message a transcript event carries, if its text is a non-empty string; its id
      is `detail.id` when that is truthy. */
  function EventMsg(detail: Option<Json>): Option<Msg> {
    var d := if detail.Some? && Truthy(detail.value) then detail.value else Obj([]);
    var t := Field(Some(d), "text");
    var text := if t.Some? && t.value.Str? then t.value.s else "";
    if text == [] then None
    else
      var prefix := if Field(Some(d), "source") == Some(Str("realtime")) then RealtimePrefix else "";
      var id := Field(Some(d), "id");
      var fin := Field(Some(d), "final");
      Some(Msg("assistant", prefix + text,
               if id.Some? && Truthy(id.value) then id else None,
               fin.Some? && Truthy(fin.value)))
  }

  /** The chat after one `hb-realtime-transcript` event with `event.detail == detail`. */
  function Upsert(chat: seq<Msg>, detail: Option<Json>): seq<Msg> {
    match EventMsg(detail)
    case None => chat
    case Some(m) =>
      if m.rid.None? then chat + [Msg(m.role, m.content, None, false)]
      else
        var k := FindIndex(chat, m.rid.value);
        if k == -1 then chat + [m] else chat[k := m]
  }

  /** At most one message per realtime id. */
  predicate DistinctRids(chat: seq<Msg>) {
    forall i, j :: 0 <= i < j < |chat| && chat[i].rid.Some? ==> chat[i].rid != chat[j].rid
  }

  /** An event without text changes nothing; one without an id appends a message; one
      whose id is new appends it; one whose id is present replaces exactly that message. */
  lemma UpsertCases(chat: seq<Msg>, detail: Option<Json>)
    ensures EventMsg(detail).None? ==> Upsert(chat, detail) == chat
    ensures EventMsg(detail).Some? ==> var m := EventMsg(detail).value; var r := Upsert(chat, detail);
      (m.rid.None? ==> r == chat + [Msg("assistant", m.content, None, false)]) &&
      (m.rid.Some? && (forall k :: 0 <= k < |chat| ==> chat[k].rid != m.rid) ==> r == chat + [m]) &&
      (forall k :: 0 <= k < |chat| && chat[k].rid == m.rid && m.rid.Some? && DistinctRids(chat) ==>
        |r| == |chat| && r[k] == m && forall i :: 0 <= i < |chat| && i != k ==> r[i] == chat[i])
  {
    if EventMsg(detail).Some? {
      var m := EventMsg(detail).value;
      if m.rid.Some? {
        var fi := FindIndex(chat, m.rid.value);
        forall k | 0 <= k < |chat| && chat[k].rid == m.rid && DistinctRids(chat)
          ensures fi == k
        {
        }
      }
    }
  }

  /** The upsert keeps one message per realtime id. */
  lemma UpsertDistinct(chat: seq<Msg>, detail: Option<Json>)
    requires DistinctRids(chat)
    ensures DistinctRids(Upsert(chat, detail))
  {
    if EventMsg(detail).Some? {
      var m := EventMsg(detail).value;
      var r := Upsert(chat, detail);
      if m.rid.Some? {
        var k := FindIndex(chat, m.rid.value);
        if k != -1 {
          forall i, j | 0 <= i < j < |r| && r[i].rid.Some? ensures r[i].rid != r[j].rid {
            if i == k { assert r[j] == chat[j]; } else if j == k { assert r[i] == chat[i]; }
            else { assert r[i] == chat[i] && r[j] == chat[j]; }
          }
        }
      }
    }
  }

  /** Delivering the same event twice leaves the chat as delivering it once, when it
      carries an id. */
  lemma UpsertIdempotent(chat: seq<Msg>, detail: Option<Json>)
    requires DistinctRids(chat)
    requires EventMsg(detail).Some? && EventMsg(detail).value.rid.Some?
    ensures Upsert(Upsert(chat, detail), detail) == Upsert(chat, detail)
  {
    var m := EventMsg(detail).value;
    var r := Upsert(chat, detail);
    var k := FindIndex(chat, m.rid.value);
    var k2 := FindIndex(r, m.rid.value);
    if k == -1 {
      assert r[|chat|] == m;
      assert k2 == |chat|;
      assert r[k2 := m] == r;
    } else {
      assert r[k] == m;
      assert k2 <= k;
      assert k2 == k;
      assert r[k2 := m] == r;
    }
  }

  // ---------------------------------------------------------------------------
  // The request of callGPT (213-246)

  /** `chat.slice(-8).map(({role, content}) => ({role, content}))`. */
  function Recent(chat: seq<Msg>): (r: seq<(string, string)>)
    ensures |r| == if |chat| < 8 then |chat| else 8
    ensures forall k :: 0 <= k < |r| ==>
      r[k] == (chat[|chat| - |r| + k].role, chat[|chat| - |r| + k].content)
  {
    var w := if |chat| < 8 then |chat| else 8;
    var tail := chat[|chat| - w..];
    assert forall k :: 0 <= k < w ==> tail[k] == chat[|chat| - w + k];
    RoleContent(tail)
  }

  function RoleContent(chat: seq<Msg>): (r: seq<(string, string)>)
    ensures |r| == |chat|
    ensures forall k :: 0 <= k < |chat| ==> r[k] == (chat[k].role, chat[k].content)
  {
    if chat == [] then [] else [(chat[0].role, chat[0].content)] + RoleContent(chat[1..])
  }

  /** The messages sent to `/api/chat`; `None` when the trimmed user text is empty and
      no request is made. */
  function RequestMessages(system: string, chat: seq<Msg>, userText: string): Option<seq<(string, string)>> {
    var user := Trim(userText);
    if user == [] then None
    else Some([("system", system)] + Recent(chat) + [("user", user)])
  }

  /** The request holds the system prompt, then at most the eight newest chat messages in
      order, then the user's trimmed text. */
  lemma RequestShape(system: string, chat: seq<Msg>, userText: string)
    ensures RequestMessages(system, chat, userText).None? <==> Trim(userText) == []
    ensures RequestMessages(system, chat, userText).Some? ==>
      var ms := RequestMessages(system, chat, userText).value; var w := |ms| - 2;
      2 <= |ms| <= 10 && w == (if |chat| < 8 then |chat| else 8) &&
      ms[0] == ("system", system) && ms[|ms| - 1] == ("user", Trim(userText)) &&
      forall k :: 1 <= k <= w ==> ms[k] == (chat[|chat| - w + k - 1].role, chat[|chat| - w + k - 1].content)
  {
    var user := Trim(userText);
    if user != [] {
      var r := Recent(chat);
      assert RequestMessages(system, chat, userText) == Some([("system", system)] + r + [("user", user)]);
      Framed(("system", system), r, ("user", user));
    }
  }
}

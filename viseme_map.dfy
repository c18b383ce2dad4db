/** The pinyin-to-viseme mapping that drives the avatar's lip sync
    (src/viseme/visemeMap.js): a syllable is split into an initial and a final,
    each is looked up in a table, and an utterance becomes a timeline of equal slices. */
module VisemeMap {
  import opened Text
  import opened Wrappers

  /** The mouth shapes the avatar's morph targets provide. */
  const VisemeNames: set<string> :=
    {"sil", "PP", "FF", "TH", "DD", "kk", "CH", "SS", "nn", "RR", "aa", "E", "I", "O", "U"}

  /** `INITIALS`: consonant initials and the mouth shape each one starts with. */
  function InitialShape(init: string): (r: Option<string>)
    ensures r.Some? ==> r.value in VisemeNames && 1 <= |init| <= 2
  {
    match init
    case "b" => Some("PP") case "p" => Some("PP") case "m" => Some("PP") case "f" => Some("FF")
    case "d" => Some("DD") case "t" => Some("DD") case "n" => Some("nn") case "l" => Some("DD")
    case "g" => Some("kk") case "k" => Some("kk") case "h" => Some("SS")
    case "j" => Some("CH") case "q" => Some("CH") case "x" => Some("SS")
    case "zh" => Some("CH") case "ch" => Some("CH") case "sh" => Some("SS")
    case "r" => Some("RR") case "z" => Some("SS") case "c" => Some("SS") case "s" => Some("SS")
    case _ => None
  }

  /** `FINALS`: finals and their vowel mouth shapes (`v` stands for `ü`). */
  function FinalShape(final: string): (r: Option<string>)
    ensures r.Some? ==> r.value in VisemeNames
  {
    match final
    case "a" => Some("aa") case "ai" => Some("E") case "an" => Some("aa") case "ang" => Some("aa")
    case "e" => Some("E") case "ei" => Some("E") case "en" => Some("E") case "eng" => Some("E")
    case "er" => Some("RR")
    case "i" => Some("I") case "ia" => Some("aa") case "ian" => Some("I") case "iang" => Some("aa")
    case "iao" => Some("aa") case "ie" => Some("E") case "in" => Some("I") case "ing" => Some("I")
    case "iong" => Some("U") case "iu" => Some("U")
    case "o" => Some("O") case "ong" => Some("O") case "ou" => Some("O")
    case "u" => Some("U") case "ua" => Some("aa") case "uai" => Some("E") case "uan" => Some("U")
    case "uang" => Some("aa") case "ue" => Some("I") case "ui" => Some("U") case "un" => Some("U")
    case "uo" => Some("O")
    case "v" => Some("I") case "ve" => Some("E")
    case _ => None
  }

  /** The shape used when neither table knows the syllable. */
  const Fallback: string := "aa"

  /** The two-letter initials, in the order they are tried. */
  const TwoLetterInitials: seq<string> := ["zh", "ch", "sh"]

  /** The characters `[a-züv]` that survive normalisation. */
  predicate IsSyllableChar(c: char) { IsAsciiLower(c) || c == '\U{00FC}' }

  /** `(p || '').toLowerCase().replace(/[^a-züv]/g, '').trim()`. */
  function Normalize(p: string): (s: string)
    ensures forall i :: 0 <= i < |s| ==> IsSyllableChar(s[i])
    ensures |s| <= |p|
  {
    if p == [] then []
    else (if IsSyllableChar(LowerChar(p[0])) then [LowerChar(p[0])] else []) + Normalize(p[1..])
  }

  lemma {:induction false} NormalizeNoUmlaut(p: string)
    requires '\U{00FC}' !in p && '\U{00DC}' !in p
    ensures '\U{00FC}' !in Normalize(p)
  {
    if p != [] {
      assert '\U{00FC}' !in p[1..] && '\U{00DC}' !in p[1..];
      NormalizeNoUmlaut(p[1..]);
    }
  }

  /** `s.replace('ü', 'v')`: only the first `ü` is replaced. */
  function ReplaceFirstUmlaut(s: string): (r: string)
    ensures |r| == |s|
    ensures '\U{00FC}' !in s ==> r == s
  {
    if s == [] then []
    else if s[0] == '\U{00FC}' then ['v'] + s[1..]
    else [s[0]] + ReplaceFirstUmlaut(s[1..])
  }

  /** The split into initial and final: `zh`/`ch`/`sh` are tried before a one-letter initial. */
  function Split(s: string): (r: (string, string))
    ensures r.0 + r.1 == s
    ensures r.0 == "" || InitialShape(r.0).Some?
  {
    if StartsWith(s, "zh") then ("zh", s[2..])
    else if StartsWith(s, "ch") then ("ch", s[2..])
    else if StartsWith(s, "sh") then ("sh", s[2..])
    else if |s| >= 1 && InitialShape([s[0]]).Some? then ([s[0]], s[1..])
    else ("", s)
  }

  /** The viseme the realised syllable maps to, as a function of its text. */
  function SyllableViseme(p: string): string {
    var s := Normalize(p);
    if s == [] then "sil"
    else
      var (init, rest) := Split(s);
      if init != "" then InitialShape(init).value
      else if FinalShape(rest).Some? then FinalShape(rest).value
      else if FinalShape(ReplaceFirstUmlaut(rest)).Some? then FinalShape(ReplaceFirstUmlaut(rest)).value
      else Fallback
  }

  /** `syllableToViseme`: normalise, try the two-letter initials in order (stopping at the
      first match), then a one-letter initial, then look the parts up. */
  method SyllableToViseme(p: string) returns (v: string)
    ensures v == SyllableViseme(p)
    ensures v in VisemeNames
  {
    var s := Normalize(p);
    if s == [] {
      return "sil";
    }
    var init, rest := "", s;
    var k := 0;
    while k < |TwoLetterInitials|
      invariant 0 <= k <= |TwoLetterInitials|
      invariant init == "" ==> rest == s
      invariant init == "" ==> forall m :: 0 <= m < k ==> !StartsWith(s, TwoLetterInitials[m])
      invariant init != "" ==> (init, rest) == Split(s)
    {
      var two := TwoLetterInitials[k];
      if StartsWith(s, two) {
        init, rest := two, s[2..];
        assert k == 0 || !StartsWith(s, TwoLetterInitials[0]);
        assert k <= 1 || !StartsWith(s, TwoLetterInitials[1]);
        assert k == 0 ==> two == "zh";
        assert k == 1 ==> two == "ch";
        assert k == 2 ==> two == "sh";
        assert (init, rest) == Split(s);
        break;
      }
      k := k + 1;
    }
    if init == "" {
      assert k == 3;
      assert !StartsWith(s, TwoLetterInitials[0]) && !StartsWith(s, TwoLetterInitials[1]);
      assert !StartsWith(s, TwoLetterInitials[2]);
      assert !StartsWith(s, "zh") && !StartsWith(s, "ch") && !StartsWith(s, "sh");
      var one := [s[0]];
      if InitialShape(one).Some? {
        init, rest := one, s[1..];
      }
    }
    assert (init, rest) == Split(s);
    var vInit := if init != "" then InitialShape(init) else None;
    var vFinal := if FinalShape(rest).Some? then FinalShape(rest) else FinalShape(ReplaceFirstUmlaut(rest));
    if vInit.Some? {
      return vInit.value;
    }
    if vFinal.Some? {
      return vFinal.value;
    }
    return Fallback;
  }

  /** A syllable with no letters left after normalisation is silence. */
  lemma EmptyIsSilence(p: string)
    requires Normalize(p) == []
    ensures SyllableViseme(p) == "sil"
  {
  }

  /** A two-letter initial wins over its one-letter prefix: `zhi` is `CH` ... */
  lemma TwoLetterInitialWins()
    ensures SyllableViseme("zhi") == "CH" && SyllableViseme("shi") == "SS"
  {
    InitialDecides("zh", "i");
    assert "zh" + "i" == "zhi";
    InitialDecides("sh", "i");
    assert "sh" + "i" == "shi";
  }

  /** ... while `zi` and `ci` start with the one-letter initials `z` and `c`. */
  lemma OneLetterInitials()
    ensures SyllableViseme("zi") == "SS" && SyllableViseme("ci") == "SS"
  {
    assert "z" + "i" == "zi";
    NoSecondH("zi");
    InitialDecides("z", "i");
    assert "c" + "i" == "ci";
    NoSecondH("ci");
    InitialDecides("c", "i");
  }

  /** A syllable whose second letter is not `h` has no two-letter initial. */
  lemma NoSecondH(s: string)
    requires |s| >= 2 && s[1] != 'h'
    ensures !StartsWith(s, "zh") && !StartsWith(s, "ch") && !StartsWith(s, "sh")
  {
    assert s[..2][1] == s[1];
  }

  /** A recognised initial decides the viseme whatever final follows it. */
  lemma InitialDecides(init: string, final: string)
    requires InitialShape(init).Some?
    requires |init| == 1 ==> !StartsWith(init + final, "zh") && !StartsWith(init + final, "ch") && !StartsWith(init + final, "sh")
    requires forall i :: 0 <= i < |final| ==> IsSyllableChar(final[i])
    ensures SyllableViseme(init + final) == InitialShape(init).value
  {
    var s := init + final;
    NormalizeSyllableText(s);
    if |init| == 1 {
      assert [s[0]] == init;
    } else {
      assert init == "zh" || init == "ch" || init == "sh";
      assert StartsWith(s, init);
    }
  }

  /** Normalisation leaves already-normal text alone. */
  lemma {:induction false} NormalizeSyllableText(s: string)
    requires forall i :: 0 <= i < |s| ==> IsSyllableChar(s[i])
    ensures Normalize(s) == s
  {
    if s != [] {
      assert LowerChar(s[0]) == s[0];
      NormalizeSyllableText(s[1..]);
    }
  }

  /** Without an initial, the final is looked up as written, then with its first `ü` as `v`,
      and the fallback is `aa`. */
  lemma NoInitialUsesFinal(p: string)
    requires Normalize(p) != [] && Split(Normalize(p)).0 == ""
    ensures var s := Normalize(p);
      SyllableViseme(p) ==
        if FinalShape(s).Some? then FinalShape(s).value
        else if FinalShape(ReplaceFirstUmlaut(s)).Some? then FinalShape(ReplaceFirstUmlaut(s)).value
        else "aa"
  {
  }

  /** `ü` alone has no initial and is found only through its `v` spelling. */
  lemma UmlautRetry()
    ensures SyllableViseme("ü") == "I"
  {
    NormalizeSyllableText("ü");
    assert Split("ü") == ("", "ü");
    assert ReplaceFirstUmlaut("ü") == "v";
  }

  /** Every syllable maps to one of the avatar's visemes. */
  lemma VisemeIsKnown(p: string)
    ensures SyllableViseme(p) in VisemeNames
  {
  }

  // ---------------------------------------------------------------------------
  // Timeline

  /** One slice of the lip-sync timeline, in milliseconds. */
  datatype Segment = Segment(t0: real, t1: real, viseme: string)

  /** `durationMs` after `Number(...)`: `None` stands for a missing or non-numeric value (NaN). */
  type Duration = Option<real>

  /** `Math.max(300, Number(durationMs) || 1200)`: zero and NaN fall back to 1200 ms. */
  function TotalMs(d: Duration): (t: real)
    ensures t >= 300.0
    ensures d.None? || d.value == 0.0 ==> t == 1200.0
    ensures d.Some? && d.value != 0.0 ==> t == if d.value > 300.0 then d.value else 300.0
  {
    if d.None? || d.value == 0.0 then 1200.0
    else if d.value > 300.0 then d.value else 300.0
  }

  /** The lower-cased viseme a timeline segment carries for one syllable. */
  function SegmentViseme(tok: string): string {
    Lower(SyllableViseme(tok))
  }

  /** The lower-case forms of the avatar's visemes. */
  const LowerVisemeNames: set<string> := set v | v in VisemeNames :: Lower(v)

  /** Every segment viseme is the lower-case form of one of the avatar's visemes. */
  lemma SegmentVisemeKnown(tok: string)
    ensures SegmentViseme(tok) in LowerVisemeNames
  {
    VisemeIsKnown(tok);
  }

  /** `pinyinToVisemeTimeline`: one equal slice of the total per whitespace-separated syllable. */
  function Timeline(pinyin: string, d: Duration): seq<Segment> {
    var toks := Words(pinyin);
    Layout(SegmentVisemes(toks), SliceMs(|toks|, d))
  }

  /** The segment visemes of a list of syllables, in order. */
  function SegmentVisemes(toks: seq<string>): (vs: seq<string>)
    ensures |vs| == |toks|
    ensures forall i :: 0 <= i < |toks| ==> vs[i] == SegmentViseme(toks[i])
  {
    seq(|toks|, i requires 0 <= i < |toks| => SegmentViseme(toks[i]))
  }

  /** Segment `i` of a layout spans `[i*w, (i+1)*w)` and carries viseme `i`. */
  function Layout(vs: seq<string>, w: real): (tl: seq<Segment>)
    ensures |tl| == |vs|
    ensures forall i :: 0 <= i < |vs| ==> tl[i].viseme == vs[i]
  {
    seq(|vs|, i requires 0 <= i < |vs| => Segment((i as real) * w, ((i + 1) as real) * w, vs[i]))
  }

  /** `total / Math.max(1, n)`: the width every slice of a timeline of `n` syllables gets. */
  function SliceMs(n: nat, d: Duration): (w: real)
    ensures w > 0.0
    ensures n > 0 ==> (n as real) * w == TotalMs(d)
  {
    var m := if n > 1 then n else 1;
    DivMul(TotalMs(d), m as real);
    TotalMs(d) / (m as real)
  }

  lemma DivMul(t: real, m: real)
    requires m > 0.0
    ensures m * (t / m) == t
  {
  }

  /** One segment per syllable, in order, each with the lower-cased viseme of its syllable. */
  lemma TimelineVisemes(pinyin: string, d: Duration)
    ensures var tl := Timeline(pinyin, d); var toks := Words(pinyin);
      && |tl| == |toks|
      && (forall i :: 0 <= i < |tl| ==> tl[i].viseme == Lower(SyllableViseme(toks[i])))
      && (forall i :: 0 <= i < |tl| ==> tl[i].viseme in LowerVisemeNames)
  {
    var toks := Words(pinyin);
    forall i | 0 <= i < |toks| ensures SegmentViseme(toks[i]) in LowerVisemeNames {
      SegmentVisemeKnown(toks[i]);
    }
  }

  /** The segments of a layout are contiguous slices of width `w` starting at 0. */
  lemma LayoutSlices(vs: seq<string>, w: real)
    ensures var tl := Layout(vs, w);
      && (forall i :: 0 <= i < |tl| ==> tl[i].t1 - tl[i].t0 == w)
      && (forall i :: 0 <= i < |tl| - 1 ==> tl[i].t1 == tl[i + 1].t0)
      && (tl != [] ==> tl[0].t0 == 0.0 && tl[|tl| - 1].t1 == (|tl| as real) * w)
  {
    LayoutWidths(vs, w);
    LayoutContiguous(vs, w);
    LayoutEnds(vs, w);
  }

  lemma LayoutWidths(vs: seq<string>, w: real)
    ensures var tl := Layout(vs, w); forall i :: 0 <= i < |tl| ==> tl[i].t1 - tl[i].t0 == w
  {
    var tl := Layout(vs, w);
    forall i | 0 <= i < |tl| ensures tl[i].t1 - tl[i].t0 == w {
      assert tl[i] == Segment((i as real) * w, ((i + 1) as real) * w, vs[i]);
      SliceStep(i as real, w);
    }
  }

  lemma LayoutContiguous(vs: seq<string>, w: real)
    ensures var tl := Layout(vs, w); forall i :: 0 <= i < |tl| - 1 ==> tl[i].t1 == tl[i + 1].t0
  {
    var tl := Layout(vs, w);
    forall i | 0 <= i < |tl| - 1 ensures tl[i].t1 == tl[i + 1].t0 {
      assert tl[i].t1 == ((i + 1) as real) * w;
      assert tl[i + 1].t0 == ((i + 1) as real) * w;
    }
  }

  lemma LayoutEnds(vs: seq<string>, w: real)
    ensures var tl := Layout(vs, w); tl != [] ==> tl[0].t0 == 0.0 && tl[|tl| - 1].t1 == (|tl| as real) * w
  {
    var tl := Layout(vs, w);
    if tl != [] {
      var n := |tl| - 1;
      assert tl[0].t0 == (0 as real) * w;
      assert tl[n].t1 == ((n + 1) as real) * w;
    }
  }

  lemma SliceStep(x: real, w: real)
    ensures (x + 1.0) * w - x * w == w
  {
  }

  /** Segments are contiguous slices of equal width that start at 0 and end at the total. */
  lemma TimelineSlices(pinyin: string, d: Duration)
    ensures var tl := Timeline(pinyin, d); var w := SliceMs(|Words(pinyin)|, d);
      && (forall i :: 0 <= i < |tl| ==> tl[i].t1 - tl[i].t0 == w)
      && (forall i :: 0 <= i < |tl| - 1 ==> tl[i].t1 == tl[i + 1].t0)
      && (tl != [] ==> tl[0].t0 == 0.0 && tl[|tl| - 1].t1 == TotalMs(d))
  {
    var n := |Words(pinyin)|;
    var vs := SegmentVisemes(Words(pinyin));
    var w := SliceMs(n, d);
    LayoutSlices(vs, w);
    LastSliceEnds(vs, n, w, d);
  }

  lemma LastSliceEnds(vs: seq<string>, n: nat, w: real, d: Duration)
    requires |vs| == n && w == SliceMs(n, d)
    ensures var tl := Layout(vs, w); tl != [] ==> tl[|tl| - 1].t1 == TotalMs(d)
  {
  }

  /** No syllables, no segments; no argument at all behaves like an empty string. */
  lemma EmptyTimeline(d: Duration)
    ensures Timeline("", d) == [] && Timeline(" \t ", d) == []
  {
    assert Words(" \t ") == Words("\t ") == Words(" ") == Words("") == [];
  }
}

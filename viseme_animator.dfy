/** The avatar component's own copy of the viseme mapping
    (src/components/VisemeAnimator.jsx): the same split as in `VisemeMap` but with no
    `ü`-to-`v` retry and a lower-cased result, plus the per-frame lookup of the
    segment that is playing. */
module VisemeAnimator {
  import opened Text
  import opened Wrappers
  import VM = VisemeMap

  /** `(INITIALS[init] || FINALS[rest] || 'aa').toLowerCase()`, or `sil` for an empty syllable. */
  function AnimViseme(p: string): string {
    var s := VM.Normalize(p);
    if s == [] then "sil"
    else
      var (init, rest) := VM.Split(s);
      if init != "" then Lower(VM.InitialShape(init).value)
      else if VM.FinalShape(rest).Some? then Lower(VM.FinalShape(rest).value)
      else VM.Fallback
  }

  /** The inline `syllableToViseme`: the same loop over `zh`, `ch`, `sh` as the shared
      module, then one lookup per table. */
  method SyllableToViseme(p: string) returns (v: string)
    ensures v == AnimViseme(p)
    ensures v in VM.LowerVisemeNames
  {
    var s := VM.Normalize(p);
    if s == [] {
      assert Lower("sil") == "sil";
      return "sil";
    }
    var init, rest := "", s;
    var k := 0;
    while k < |VM.TwoLetterInitials|
      invariant 0 <= k <= |VM.TwoLetterInitials|
      invariant init == "" ==> rest == s
      invariant init == "" ==> forall m :: 0 <= m < k ==> !StartsWith(s, VM.TwoLetterInitials[m])
      invariant init != "" ==> (init, rest) == VM.Split(s)
    {
      var two := VM.TwoLetterInitials[k];
      if StartsWith(s, two) {
        init, rest := two, s[2..];
        assert k == 0 || !StartsWith(s, VM.TwoLetterInitials[0]);
        assert k <= 1 || !StartsWith(s, VM.TwoLetterInitials[1]);
        assert k == 0 ==> two == "zh";
        assert k == 1 ==> two == "ch";
        assert k == 2 ==> two == "sh";
        assert (init, rest) == VM.Split(s);
        break;
      }
      k := k + 1;
    }
    if init == "" {
      assert k == 3;
      assert !StartsWith(s, VM.TwoLetterInitials[0]) && !StartsWith(s, VM.TwoLetterInitials[1]);
      assert !StartsWith(s, VM.TwoLetterInitials[2]);
      var one := [s[0]];
      if VM.InitialShape(one).Some? {
        init, rest := one, s[1..];
      }
    }
    assert (init, rest) == VM.Split(s);
    var shape := if init != "" && VM.InitialShape(init).Some? then VM.InitialShape(init).value
      else if VM.FinalShape(rest).Some? then VM.FinalShape(rest).value
      else VM.Fallback;
    assert shape in VM.VisemeNames;
    assert Lower(VM.Fallback) == VM.Fallback;
    v := Lower(shape);
  }

  /** On syllables without `ü` the two copies agree up to case. */
  lemma AgreesWithoutUmlaut(p: string)
    requires '\U{00FC}' !in p && '\U{00DC}' !in p
    ensures AnimViseme(p) == Lower(VM.SyllableViseme(p))
  {
    var s := VM.Normalize(p);
    VM.NormalizeNoUmlaut(p);
    assert Lower("sil") == "sil";
    assert Lower(VM.Fallback) == VM.Fallback;
    if s != [] {
      var (init, rest) := VM.Split(s);
      SuffixLacks(s, |init|, '\U{00FC}');
      assert rest == s[|init|..];
    }
  }

  /** ... and they differ on a bare `ü`: the shared module finds `v`, this copy falls back. */
  lemma UmlautDiffers()
    ensures AnimViseme("ü") == "aa" && VM.SyllableViseme("ü") == "I"
  {
    VM.NormalizeSyllableText("ü");
    assert VM.Split("ü") == ("", "ü");
    VM.UmlautRetry();
  }

  /** The inline `pinyinToTimeline`: the same equal slicing, with this copy's visemes. */
  function AnimTimeline(pinyin: string, d: VM.Duration): seq<VM.Segment> {
    var toks := Words(pinyin);
    VM.Layout(AnimVisemes(toks), VM.SliceMs(|toks|, d))
  }

  function AnimVisemes(toks: seq<string>): (vs: seq<string>)
    ensures |vs| == |toks|
    ensures forall i :: 0 <= i < |toks| ==> vs[i] == AnimViseme(toks[i])
  {
    seq(|toks|, i requires 0 <= i < |toks| => AnimViseme(toks[i]))
  }

  /** For `ü`-free text the component's timeline is the shared module's timeline. */
  lemma TimelinesCoincide(pinyin: string, d: VM.Duration)
    requires '\U{00FC}' !in pinyin && '\U{00DC}' !in pinyin
    ensures AnimTimeline(pinyin, d) == VM.Timeline(pinyin, d)
  {
    var toks := Words(pinyin);
    WordsFromInput(pinyin, '\U{00FC}');
    WordsFromInput(pinyin, '\U{00DC}');
    var a := AnimVisemes(toks);
    var b := VM.SegmentVisemes(toks);
    forall i | 0 <= i < |toks| ensures a[i] == b[i] {
      AgreesWithoutUmlaut(toks[i]);
    }
    assert a == b;
  }

  /** One segment per syllable; slices of equal width, contiguous, from 0 to a total of
      at least 300 ms. */
  lemma AnimTimelineShape(pinyin: string, d: VM.Duration)
    ensures var tl := AnimTimeline(pinyin, d); var w := VM.SliceMs(|Words(pinyin)|, d);
      && |tl| == |Words(pinyin)|
      && (forall i :: 0 <= i < |tl| ==> tl[i].t1 - tl[i].t0 == w)
      && (forall i :: 0 <= i < |tl| - 1 ==> tl[i].t1 == tl[i + 1].t0)
      && (tl != [] ==> tl[0].t0 == 0.0 && tl[|tl| - 1].t1 == VM.TotalMs(d) && VM.TotalMs(d) >= 300.0)
  {
    var n := |Words(pinyin)|;
    var vs := AnimVisemes(Words(pinyin));
    var w := VM.SliceMs(n, d);
    VM.LayoutSlices(vs, w);
    VM.LastSliceEnds(vs, n, w, d);
  }

  // ---------------------------------------------------------------------------
  // Frame lookup

  /** `s.t0 <= now && now < s.t1`. */
  predicate Covers(s: VM.Segment, now: real) { s.t0 <= now < s.t1 }

  /** `tl.find(...)`: the index of the first segment covering `now`. */
  function FindSegment(tl: seq<VM.Segment>, now: real): (r: Option<nat>)
    ensures r.Some? ==> r.value < |tl| && Covers(tl[r.value], now)
    ensures r.Some? ==> forall j :: 0 <= j < r.value ==> !Covers(tl[j], now)
    ensures r.None? ==> forall j :: 0 <= j < |tl| ==> !Covers(tl[j], now)
  {
    if tl == [] then None
    else if Covers(tl[0], now) then Some(0)
    else
      match FindSegment(tl[1..], now)
      case None => None
      case Some(i) => Some(i + 1)
  }

  lemma MulMonotone(a: real, b: real, w: real)
    requires a <= b && w > 0.0
    ensures a * w <= b * w
  {
  }

  /** Where slice `i` of a layout starts and ends. */
  lemma LayoutBounds(vs: seq<string>, w: real, i: nat)
    requires i < |vs|
    ensures VM.Layout(vs, w)[i].t0 == (i as real) * w
    ensures VM.Layout(vs, w)[i].t1 == ((i + 1) as real) * w
  {
  }

  /** The slices of a layout do not overlap: at most one covers any instant. */
  lemma LayoutDisjoint(vs: seq<string>, w: real, now: real, i: nat, j: nat)
    requires w > 0.0
    requires i < j < |vs|
    ensures !(Covers(VM.Layout(vs, w)[i], now) && Covers(VM.Layout(vs, w)[j], now))
  {
    var tl := VM.Layout(vs, w);
    LayoutBounds(vs, w, i);
    LayoutBounds(vs, w, j);
    assert ((i + 1) as real) <= (j as real);
    MulMonotone((i + 1) as real, j as real, w);
    assert tl[i].t1 <= tl[j].t0;
  }

  /** Some slice among the first `k` covers `now` when `0 <= now < k * w`. */
  lemma {:induction false} LayoutCovers(vs: seq<string>, w: real, now: real, k: nat)
    requires w > 0.0 && k <= |vs|
    requires 0.0 <= now < (k as real) * w
    ensures exists i :: 0 <= i < k && Covers(VM.Layout(vs, w)[i], now)
  {
    var tl := VM.Layout(vs, w);
    LayoutBounds(vs, w, k - 1);
    if now >= ((k - 1) as real) * w {
      assert Covers(tl[k - 1], now);
    } else {
      LayoutCovers(vs, w, now, k - 1);
    }
  }

  /** On a layout the lookup succeeds exactly on `[0, n * w)` and the segment it finds is the
      only one covering `now`. */
  lemma LayoutLookup(vs: seq<string>, w: real, now: real)
    requires w > 0.0 && vs != []
    ensures var tl := VM.Layout(vs, w); var r := FindSegment(tl, now);
      && (r.Some? <==> 0.0 <= now < (|vs| as real) * w)
      && (r.Some? ==> forall j :: 0 <= j < |tl| && j != r.value ==> !Covers(tl[j], now))
  {
    var tl := VM.Layout(vs, w);
    var r := FindSegment(tl, now);
    if 0.0 <= now < (|vs| as real) * w {
      LayoutCovers(vs, w, now, |vs|);
    }
    if r.Some? {
      LookupInRange(vs, w, now, r.value);
      forall j | 0 <= j < |tl| && j != r.value ensures !Covers(tl[j], now) {
        if r.value < j {
          LayoutDisjoint(vs, w, now, r.value, j);
        }
      }
    }
  }

  /** A slice that covers `now` lies inside `[0, n * w)`. */
  lemma LookupInRange(vs: seq<string>, w: real, now: real, i: nat)
    requires w > 0.0 && i < |vs| && Covers(VM.Layout(vs, w)[i], now)
    ensures 0.0 <= now < (|vs| as real) * w
  {
    LayoutBounds(vs, w, i);
    InSlice(i, |vs|, w, now);
  }

  /** A point of the `i`-th slice of width `w` lies in `[0, n * w)` when `i < n`. */
  lemma InSlice(i: nat, n: nat, w: real, now: real)
    requires w > 0.0 && i < n
    requires (i as real) * w <= now < ((i + 1) as real) * w
    ensures 0.0 <= now < (n as real) * w
  {
    MulNonNegative(i as real, w);
    MulMonotone((i + 1) as real, n as real, w);
  }

  lemma MulNonNegative(a: real, w: real)
    requires a >= 0.0 && w > 0.0
    ensures a * w >= 0.0
  {
  }

  /** The frame lookup on a timeline of `n` equal slices of `total / n`. */
  lemma LookupOnSlices(tl: seq<VM.Segment>, vs: seq<string>, d: VM.Duration, now: real)
    requires vs != [] && tl == VM.Layout(vs, VM.SliceMs(|vs|, d))
    ensures var r := FindSegment(tl, now);
      && (r.Some? <==> 0.0 <= now < VM.TotalMs(d))
      && (r.Some? ==> forall j :: 0 <= j < |tl| && j != r.value ==> !Covers(tl[j], now))
  {
    var w := VM.SliceMs(|vs|, d);
    assert (|vs| as real) * w == VM.TotalMs(d);
    LayoutLookup(vs, w, now);
  }

  /** The frame lookup finds a segment exactly while `0 <= now < total`, and it is the only one
      covering `now`. */
  lemma FrameLookup(pinyin: string, d: VM.Duration, now: real)
    requires Words(pinyin) != []
    ensures var tl := AnimTimeline(pinyin, d); var r := FindSegment(tl, now);
      && (r.Some? <==> 0.0 <= now < VM.TotalMs(d))
      && (r.Some? ==> forall j :: 0 <= j < |tl| && j != r.value ==> !Covers(tl[j], now))
  {
    var toks := Words(pinyin);
    LookupOnSlices(AnimTimeline(pinyin, d), AnimVisemes(toks), d, now);
  }

  /** `dict[('viseme_' + v).toLowerCase()] ?? dict[v] ?? dict['viseme_aa']`: the morph target
      a segment drives. */
  function MorphIndex(dict: map<string, nat>, v: string): (r: Option<nat>)
    ensures Lower("viseme_" + v) in dict ==> r == Some(dict[Lower("viseme_" + v)])
    ensures Lower("viseme_" + v) !in dict && v in dict ==> r == Some(dict[v])
    ensures Lower("viseme_" + v) !in dict && v !in dict && "viseme_aa" in dict ==> r == Some(dict["viseme_aa"])
    ensures r.None? <==> Lower("viseme_" + v) !in dict && v !in dict && "viseme_aa" !in dict
  {
    var key := Lower("viseme_" + v);
    if key in dict then Some(dict[key])
    else if v in dict then Some(dict[v])
    else if "viseme_aa" in dict then Some(dict["viseme_aa"])
    else None
  }
}

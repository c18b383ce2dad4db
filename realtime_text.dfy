/** The string-level pieces of the realtime panel (src/components/RealtimePanel.jsx):
    the two overlap merges of a stored transcript with a new candidate, the
    garbled-tone-mark filter, the recursive text extractor over a realtime event,
    and the bounded list of transcripts shown in the user interface. */
module RealtimeText {
  import opened Wrappers
  import opened Text
  import opened Json

  // ---------------------------------------------------------------------------
  // Overlap search

  /** The last `k` characters of `prev` are the first `k` characters of `cand`
      (`prev.slice(-k) === cand.slice(0, k)`). */
  predicate Overlaps(prev: string, cand: string, k: nat) {
    k <= |prev| && k <= |cand| && prev[|prev| - k..] == cand[..k]
  }

  /** The largest `k` with `lo < k <= hi` at which `prev` and `cand` overlap, or 0
      when there is none. */
  function LongestOverlap(prev: string, cand: string, hi: nat, lo: nat): (k: nat)
    ensures k == 0 || (lo < k <= hi && Overlaps(prev, cand, k))
    ensures forall j :: lo < j <= hi && k < j ==> !Overlaps(prev, cand, j)
    decreases hi
  {
    if hi <= lo then 0
    else if Overlaps(prev, cand, hi) then hi
    else LongestOverlap(prev, cand, hi - 1, lo)
  }

  /** The count-down loop `for (let k = hi; k > lo; k--)` that stops at the first
      overlap; `overlap` stays 0 when none is found. */
  method FindOverlap(prev: string, cand: string, hi: nat, lo: nat) returns (overlap: nat)
    requires hi <= |prev| && hi <= |cand|
    ensures overlap == LongestOverlap(prev, cand, hi, lo)
  {
    overlap := 0;
    var k: nat := hi;
    while k > lo
      invariant k <= hi
      invariant LongestOverlap(prev, cand, hi, lo) == LongestOverlap(prev, cand, k, lo)
    {
      if prev[|prev| - k..] == cand[..k] {
        overlap := k;
        return;
      }
      k := k - 1;
    }
  }

  /** `a || b` on strings. */
  function Or(a: string, b: string): (r: string)
    ensures r == [] <==> a == [] && b == []
  {
    if a != [] then a else b
  }

  function Min(a: nat, b: nat): nat { if a <= b then a else b }

  // ---------------------------------------------------------------------------
  // mergeTranscripts (393-419)

  /** `(s.match(/[一-鿿]/g) || []).length`. */
  function CjkCount(s: string): (n: nat)
    ensures n <= |s|
    ensures n == 0 <==> !HasCjkBasic(s)
  {
    if s == [] then 0
    else
      var rest := CjkCount(s[1..]);
      assert !HasCjkBasic(s) <==> !IsCjkBasic(s[0]) && !HasCjkBasic(s[1..]) by {
        if HasCjkBasic(s[1..]) {
          var i :| 0 <= i < |s[1..]| && IsCjkBasic(s[1..][i]);
          assert IsCjkBasic(s[i + 1]);
        }
        if HasCjkBasic(s) && !IsCjkBasic(s[0]) {
          var i :| 0 <= i < |s| && IsCjkBasic(s[i]);
          assert IsCjkBasic(s[1..][i - 1]);
        }
      }
      (if IsCjkBasic(s[0]) then 1 else 0) + rest
  }

  /** The overlap `mergeTranscripts` looks for: at least 4 and at most
      `min(|prev|, |cand|, 80)` characters. */
  function MergeOverlap(prev: string, cand: string): (k: nat)
    ensures k == 0 || (4 <= k <= 80 && Overlaps(prev, cand, k))
  {
    LongestOverlap(prev, cand, Min(Min(|prev|, |cand|), 80), 3)
  }

  /** `mergeTranscripts(prev, cand)`: the containing string when one contains the
      other, the one with clearly more ideographs, an overlap join, or the longer. */
  function Merged(prev: string, cand: string): string {
    if prev == [] then cand
    else if cand == [] then prev
    else if Contains(cand, prev) then cand
    else if Contains(prev, cand) then prev
    else if CjkCount(cand) > CjkCount(prev) + 3 then cand
    else if CjkCount(prev) > CjkCount(cand) + 3 then prev
    else
      var k := MergeOverlap(prev, cand);
      if k >= 3 then prev + cand[k..]
      else if |prev| >= |cand| then prev
      else cand
  }

  /** The function as the program writes it, with its early returns and its loop. */
  method MergeTranscripts(prev: string, cand: string) returns (r: string)
    ensures r == Merged(prev, cand)
  {
    if prev == [] { return cand; }
    if cand == [] { return prev; }
    if Contains(cand, prev) { return cand; }
    if Contains(prev, cand) { return prev; }
    var prevCjk := CjkCount(prev);
    var candCjk := CjkCount(cand);
    if candCjk > prevCjk + 3 { return cand; }
    if prevCjk > candCjk + 3 { return prev; }
    var overlap := FindOverlap(prev, cand, Min(Min(|prev|, |cand|), 80), 3);
    if overlap >= 3 {
      return prev + cand[overlap..];
    }
    r := if |prev| >= |cand| then prev else cand;
  }

  /** Joining `prev` with `cand` over an overlap of `k` characters gives a string that
      starts with `prev`, ends with `cand` and is `k` characters shorter than the two. */
  lemma OverlapJoin(prev: string, cand: string, k: nat)
    requires Overlaps(prev, cand, k)
    ensures StartsWith(prev + cand[k..], prev)
    ensures EndsWith(prev + cand[k..], cand)
    ensures |prev + cand[k..]| == |prev| + |cand| - k
  {
    var r := prev + cand[k..];
    assert r[..|prev|] == prev;
    assert r[|r| - |cand|..] == prev[|prev| - k..] + cand[k..];
    assert cand == cand[..k] + cand[k..];
  }

  /** `mergeTranscripts` always returns one of its arguments or an overlap join that
      starts with `prev`, ends with `cand` and saves at least four characters over
      plain concatenation. */
  lemma MergedShape(prev: string, cand: string)
    ensures var r := Merged(prev, cand);
      r == prev || r == cand ||
      (StartsWith(r, prev) && EndsWith(r, cand) && |r| <= |prev| + |cand| - 4)
  {
    var k := MergeOverlap(prev, cand);
    if k != 0 { OverlapJoin(prev, cand, k); }
  }

  /** An empty side yields the other side, and containment yields the containing string. */
  lemma MergedContainment(prev: string, cand: string)
    ensures prev == [] ==> Merged(prev, cand) == cand
    ensures cand == [] ==> Merged(prev, cand) == prev
    ensures prev != [] && Contains(cand, prev) ==> Merged(prev, cand) == cand
    ensures cand != [] && !Contains(cand, prev) && Contains(prev, cand) ==> Merged(prev, cand) == prev
  {
  }

  /** When neither side has clearly more ideographs, the widest overlap of 4 to 80
      characters is used; with none, the longer side is kept, ties going to `prev`. */
  lemma MergedByOverlap(prev: string, cand: string)
    requires prev != [] && cand != [] && !Contains(cand, prev) && !Contains(prev, cand)
    requires CjkCount(cand) <= CjkCount(prev) + 3 && CjkCount(prev) <= CjkCount(cand) + 3
    ensures var k := MergeOverlap(prev, cand);
      k != 0 ==> (Merged(prev, cand) == prev + cand[k..] &&
        StartsWith(Merged(prev, cand), prev) && EndsWith(Merged(prev, cand), cand) &&
        forall j :: k < j <= 80 ==> !Overlaps(prev, cand, j))
    ensures (forall j :: 4 <= j <= 80 ==> !Overlaps(prev, cand, j)) ==>
      Merged(prev, cand) == (if |prev| >= |cand| then prev else cand)
  {
    var k := MergeOverlap(prev, cand);
    if k != 0 {
      OverlapJoin(prev, cand, k);
      forall j | k < j <= 80 ensures !Overlaps(prev, cand, j) {
        if j <= Min(Min(|prev|, |cand|), 80) {
          assert !Overlaps(prev, cand, j);
        }
      }
    }
  }

  // ---------------------------------------------------------------------------
  // The merge inlined in processRealtimePayload (550-566)

  /** The stored transcript `prev` merged with the candidate `cand`. */
  function Joined(prev: string, cand: string): string {
    if prev == [] then cand
    else if Contains(cand, prev) then cand
    else if Contains(prev, cand) then prev
    else prev + cand[LongestOverlap(prev, cand, Min(|prev|, |cand|), 0)..]
  }

  /** The inline merge as written, with its count-down loop from `min(|prev|, |cand|)` to 1. */
  method JoinTranscripts(prev: string, cand: string) returns (merged: string)
    ensures merged == Joined(prev, cand)
  {
    merged := cand;
    if prev != [] {
      if Contains(cand, prev) {
        merged := cand;
      } else if Contains(prev, cand) {
        merged := prev;
      } else {
        var overlap := FindOverlap(prev, cand, Min(|prev|, |cand|), 0);
        merged := prev + cand[overlap..];
      }
    }
  }

  /** The inline merge never loses text: its result contains both the stored
      transcript and the candidate. */
  lemma JoinedKeepsBoth(prev: string, cand: string)
    ensures Contains(Joined(prev, cand), prev) && Contains(Joined(prev, cand), cand)
  {
    var r := Joined(prev, cand);
    if prev == [] {
      assert OccursAt(r, prev, 0);
      ContainsSelf(cand);
    } else if Contains(cand, prev) {
      ContainsSelf(cand);
    } else if Contains(prev, cand) {
      ContainsSelf(prev);
    } else {
      var k := LongestOverlap(prev, cand, Min(|prev|, |cand|), 0);
      OverlapJoin(prev, cand, k);
      PrefixContained(r, prev);
      SuffixContained(r, cand);
    }
  }

  /** When neither contains the other, the inline merge is the shortest string that
      starts with `prev` and ends with `cand`: the overlap it uses is maximal. */
  lemma JoinedIsShortest(prev: string, cand: string, t: string)
    requires prev != [] && !Contains(cand, prev) && !Contains(prev, cand)
    requires StartsWith(t, prev) && EndsWith(t, cand)
    ensures StartsWith(Joined(prev, cand), prev) && EndsWith(Joined(prev, cand), cand)
    ensures |Joined(prev, cand)| <= |t|
  {
    var hi := Min(|prev|, |cand|);
    var k := LongestOverlap(prev, cand, hi, 0);
    OverlapJoin(prev, cand, k);
    if |t| < |prev| + |cand| {
      var j := |prev| + |cand| - |t|;
      assert j <= hi;
      assert prev[|prev| - j..] == t[|prev| - j..|prev|];
      assert cand[..j] == t[|t| - |cand|..][..j];
      assert Overlaps(prev, cand, j);
    }
  }

  // ---------------------------------------------------------------------------
  // stripToneGarble (177-202)

  /** The class `[A-Za-zÀ-ɏ]`. */
  predicate IsLatin(c: char) { IsAsciiLetter(c) || ('À' <= c <= 'ɏ') }

  /** The class `[À-ɏ]`: Latin letters with diacritics. */
  predicate IsAccented(c: char) { 'À' <= c <= 'ɏ' }

  /** The number of Latin letters from position `i` on. */
  function LatinRun(s: string, i: nat): (n: nat)
    requires i <= |s|
    ensures i + n <= |s|
    decreases |s| - i
  {
    if i < |s| && IsLatin(s[i]) then 1 + LatinRun(s, i + 1) else 0
  }

  lemma LatinRunEnd(s: string, i: nat)
    requires i <= |s|
    ensures i + LatinRun(s, i) < |s| ==> !IsLatin(s[i + LatinRun(s, i)])
  {
    LatinRunSpan(s, i);
  }

  /** A run consists of Latin letters and ends at the end or before another character. */
  lemma {:induction false} LatinRunSpan(s: string, i: nat)
    requires i <= |s|
    ensures forall j :: i <= j < i + LatinRun(s, i) ==> IsLatin(s[j])
    ensures i + LatinRun(s, i) < |s| ==> !IsLatin(s[i + LatinRun(s, i)])
    decreases |s| - i
  {
    if i < |s| && IsLatin(s[i]) { LatinRunSpan(s, i + 1); }
  }

  function AccentCount(m: string): (n: nat)
    ensures n <= |m|
  {
    if m == [] then 0 else (if IsAccented(m[0]) then 1 else 0) + AccentCount(m[1..])
  }

  /** The callback's verdict that a run of Latin letters is leaked tone-mark noise. */
  predicate Garbled(m: string) {
    var accents := AccentCount(m);
    var ascii := |m| - accents;
    accents >= 3 || (accents >= 2 && |m| >= 6) || (accents >= 2 && ascii <= 1)
  }

  /** The callback's result for the match `s[i..i + n]`: the match is kept when a
      Latin letter touches it, and dropped when it looks garbled. */
  function Replacement(s: string, i: nat, n: nat): string
    requires i + n <= |s|
  {
    var m := s[i..i + n];
    var before := i > 0 && IsLatin(s[i - 1]);
    var after := i + n < |s| && IsLatin(s[i + n]);
    if before || after then m else if Garbled(m) then [] else m
  }

  /** `s.replace(/[A-Za-zÀ-ɏ]{3,}/gu, callback)` from position `i` on: the
      longest run of three or more Latin letters at `i` is a match, and otherwise the
      scan moves one character on. */
  function ReplaceFrom(s: string, i: nat): string
    requires i <= |s|
    decreases |s| - i
  {
    if i == |s| then []
    else
      var n := LatinRun(s, i);
      if n >= 3 then Replacement(s, i, n) + ReplaceFrom(s, i + n)
      else [s[i]] + ReplaceFrom(s, i + 1)
  }

  /** `stripToneGarble(value)` on a string (an empty string is returned as it is). */
  function StripToneGarble(s: string): string {
    ReplaceFrom(s, 0)
  }

  /** The reference reading: every maximal run of three or more Latin letters that
      looks garbled is deleted, and nothing else changes. */
  function DropGarbledRuns(s: string): string
    decreases |s|
  {
    if s == [] then []
    else if !IsLatin(s[0]) then [s[0]] + DropGarbledRuns(s[1..])
    else
      var n := LatinRun(s, 0);
      KeepRun(s[..n]) + DropGarbledRuns(s[n..])
  }

  /** A whole run of Latin letters survives unless it is three letters or more and garbled. */
  function KeepRun(m: string): string {
    if |m| >= 3 && Garbled(m) then [] else m
  }

  lemma {:induction false} LatinRunShift(s: string, i: nat, j: nat)
    requires i + j <= |s|
    ensures LatinRun(s[i..], j) == LatinRun(s, i + j)
    decreases |s| - i - j
  {
    if i + j < |s| {
      assert s[i..][j] == s[i + j];
      if IsLatin(s[i + j]) { LatinRunShift(s, i, j + 1); }
    }
  }

  /** Inside a run of fewer than three Latin letters the scan copies the run. */
  lemma {:induction false} ShortRunCopied(s: string, j: nat, end: nat)
    requires j <= end <= |s| && end - j < 3
    requires forall p :: j <= p < end ==> IsLatin(s[p])
    requires end < |s| ==> !IsLatin(s[end])
    ensures ReplaceFrom(s, j) == s[j..end] + ReplaceFrom(s, end)
    decreases end - j
  {
    hide *;
    if j < end {
      RunLengthIs(s, j, end);
      ShortStep(s, j);
      ShortRunCopied(s, j + 1, end);
      assert s[j..end] == [s[j]] + s[j + 1..end];
    }
  }

  lemma RunLengthIs(s: string, j: nat, end: nat)
    requires j <= end <= |s|
    requires forall p :: j <= p < end ==> IsLatin(s[p])
    requires end < |s| ==> !IsLatin(s[end])
    ensures LatinRun(s, j) == end - j
  {
    LatinRunSpan(s, j);
  }

  /** Where no match starts, the scan copies one character. */
  lemma ShortStep(s: string, j: nat)
    requires j < |s| && LatinRun(s, j) < 3
    ensures ReplaceFrom(s, j) == [s[j]] + ReplaceFrom(s, j + 1)
  {
  }

  /** A match that starts a run and ends it has no Latin neighbour. */
  lemma ReplacementUnguarded(s: string, i: nat, n: nat)
    requires i + n <= |s| && n == LatinRun(s, i)
    requires i == 0 || !IsLatin(s[i - 1])
    requires n >= 3
    ensures Replacement(s, i, n) == KeepRun(s[i..i + n])
  {
    LatinRunSpan(s, i);
  }

  lemma {:induction false} ReplaceFromIsDrop(s: string, i: nat)
    requires i <= |s|
    requires i == |s| || i == 0 || !IsLatin(s[i - 1]) || !IsLatin(s[i])
    ensures ReplaceFrom(s, i) == DropGarbledRuns(s[i..])
    decreases |s| - i, 2
  {
    if i < |s| {
      if IsLatin(s[i]) { ReplaceFromIsDropRun(s, i); } else { ReplaceFromIsDropOther(s, i); }
    }
  }

  lemma {:induction false} ReplaceFromIsDropOther(s: string, i: nat)
    requires i < |s| && !IsLatin(s[i])
    ensures ReplaceFrom(s, i) == DropGarbledRuns(s[i..])
    decreases |s| - i, 1
  {
    var t := s[i..];
    assert t[0] == s[i];
    assert LatinRun(s, i) == 0;
    assert ReplaceFrom(s, i) == [s[i]] + ReplaceFrom(s, i + 1);
    assert t[1..] == s[i + 1..];
    assert DropGarbledRuns(t) == [s[i]] + DropGarbledRuns(s[i + 1..]);
    ReplaceFromIsDrop(s, i + 1);
  }

  lemma {:induction false} ReplaceFromIsDropRun(s: string, i: nat)
    requires i < |s| && IsLatin(s[i]) && (i == 0 || !IsLatin(s[i - 1]))
    ensures ReplaceFrom(s, i) == DropGarbledRuns(s[i..])
    decreases |s| - i, 1
  {
    if LatinRun(s, i) < 3 { ReplaceFromIsDropShort(s, i); } else { ReplaceFromIsDropMatch(s, i); }
  }

  lemma {:induction false} ReplaceFromIsDropShort(s: string, i: nat)
    requires i < |s| && IsLatin(s[i]) && LatinRun(s, i) < 3
    ensures ReplaceFrom(s, i) == DropGarbledRuns(s[i..])
    decreases |s| - i, 0
  {
    var n := LatinRun(s, i);
    calc {
      ReplaceFrom(s, i);
      == { LatinRunSpan(s, i); ShortRunCopied(s, i, i + n); }
      s[i..i + n] + ReplaceFrom(s, i + n);
      == { LatinRunEnd(s, i); ReplaceFromIsDrop(s, i + n); }
      KeepRun(s[i..i + n]) + DropGarbledRuns(s[i + n..]);
      == { DropAtRun(s, i); }
      DropGarbledRuns(s[i..]);
    }
  }

  lemma {:induction false} ReplaceFromIsDropMatch(s: string, i: nat)
    requires i < |s| && IsLatin(s[i]) && LatinRun(s, i) >= 3 && (i == 0 || !IsLatin(s[i - 1]))
    ensures ReplaceFrom(s, i) == DropGarbledRuns(s[i..])
    decreases |s| - i, 0
  {
    var n := LatinRun(s, i);
    calc {
      ReplaceFrom(s, i);
      == { ReplaceAtMatch(s, i); }
      KeepRun(s[i..i + n]) + ReplaceFrom(s, i + n);
      == { LatinRunEnd(s, i); ReplaceFromIsDrop(s, i + n); }
      KeepRun(s[i..i + n]) + DropGarbledRuns(s[i + n..]);
      == { DropAtRun(s, i); }
      DropGarbledRuns(s[i..]);
    }
  }

  /** One step of the reference reading at a run starting at `i`. */
  lemma DropAtRun(s: string, i: nat)
    requires i < |s| && IsLatin(s[i])
    ensures DropGarbledRuns(s[i..]) ==
      KeepRun(s[i..i + LatinRun(s, i)]) + DropGarbledRuns(s[i + LatinRun(s, i)..])
  {
    var t := s[i..];
    var n := LatinRun(s, i);
    assert t[0] == s[i];
    LatinRunShift(s, i, 0);
    assert t[..n] == s[i..i + n] && t[n..] == s[i + n..];
  }

  /** One step of the scan at a match starting at `i`. */
  lemma ReplaceAtMatch(s: string, i: nat)
    requires i < |s| && LatinRun(s, i) >= 3 && (i == 0 || !IsLatin(s[i - 1]))
    ensures ReplaceFrom(s, i) == KeepRun(s[i..i + LatinRun(s, i)]) + ReplaceFrom(s, i + LatinRun(s, i))
  {
    ReplacementUnguarded(s, i, LatinRun(s, i));
  }

  /** The neighbour test in the callback (188-193) never keeps a match: a greedy global
      match is a whole run of Latin letters, so the characters around it are never
      Latin.  stripToneGarble therefore deletes exactly the garbled maximal runs. */
  lemma StripIsDropGarbled(s: string)
    ensures StripToneGarble(s) == DropGarbledRuns(s)
  {
    ReplaceFromIsDrop(s, 0);
    assert s[0..] == s;
  }

  /** The characters that are not Latin letters, in order. */
  function NonLatin(s: string): string {
    if s == [] then [] else (if IsLatin(s[0]) then [] else [s[0]]) + NonLatin(s[1..])
  }

  lemma {:induction false} NonLatinAppend(a: string, b: string)
    ensures NonLatin(a + b) == NonLatin(a) + NonLatin(b)
  {
    if a == [] {
      assert a + b == b;
    } else {
      assert (a + b)[1..] == a[1..] + b;
      NonLatinAppend(a[1..], b);
    }
  }

  lemma {:induction false} NonLatinOfRun(s: string, n: nat)
    requires n <= |s| && forall j :: 0 <= j < n ==> IsLatin(s[j])
    ensures NonLatin(s[..n]) == []
  {
    if n > 0 {
      assert s[..n][1..] == s[1..][..n - 1];
      NonLatinOfRun(s[1..], n - 1);
    }
  }

  /** stripToneGarble removes Latin letters only: every other character survives, in order. */
  lemma {:induction false} DropKeepsNonLatin(s: string)
    ensures NonLatin(DropGarbledRuns(s)) == NonLatin(s)
    decreases |s|
  {
    hide *;
    if s == [] {
      NonLatinEmpty();
    } else if !IsLatin(s[0]) {
      DropStepOther(s);
      NonLatinAppend([s[0]], DropGarbledRuns(s[1..]));
      DropKeepsNonLatin(s[1..]);
    } else {
      var n := DropStepRun(s);
      NonLatinAppend(KeepRun(s[..n]), DropGarbledRuns(s[n..]));
      DropKeepsNonLatin(s[n..]);
    }
  }

  lemma NonLatinEmpty()
    ensures DropGarbledRuns([]) == [] && NonLatin([]) == []
  {
  }

  /** One step of DropGarbledRuns and NonLatin at a character that is not a Latin letter. */
  lemma DropStepOther(s: string)
    requires s != [] && !IsLatin(s[0])
    ensures DropGarbledRuns(s) == [s[0]] + DropGarbledRuns(s[1..])
    ensures NonLatin(s) == NonLatin([s[0]]) + NonLatin(s[1..])
  {
    assert s == [s[0]] + s[1..];
    NonLatinAppend([s[0]], s[1..]);
  }

  /** One step of DropGarbledRuns and NonLatin over a whole run of Latin letters. */
  lemma DropStepRun(s: string) returns (n: nat)
    requires s != [] && IsLatin(s[0])
    ensures n == LatinRun(s, 0) && 0 < n <= |s|
    ensures DropGarbledRuns(s) == KeepRun(s[..n]) + DropGarbledRuns(s[n..])
    ensures NonLatin(KeepRun(s[..n])) == [] && NonLatin(s) == NonLatin(s[n..])
  {
    n := LatinRun(s, 0);
    LatinRunSpan(s, 0);
    NonLatinOfRun(s, n);
    assert s == s[..n] + s[n..];
    NonLatinAppend(s[..n], s[n..]);
  }

  /** DropGarbledRuns never starts its result with a Latin letter unless `s` does. */
  lemma DropStart(s: string)
    requires s == [] || !IsLatin(s[0])
    ensures DropGarbledRuns(s) == [] || !IsLatin(DropGarbledRuns(s)[0])
  {
  }

  /** A Latin run followed by nothing or by a non-Latin character is a whole run. */
  lemma {:induction false} RunThenBreak(run: string, x: string)
    requires run != [] && forall j :: 0 <= j < |run| ==> IsLatin(run[j])
    requires x == [] || !IsLatin(x[0])
    ensures LatinRun(run + x, 0) == |run|
  {
    var s := run + x;
    LatinRunSpan(s, 0);
    assert forall j :: 0 <= j < |run| ==> IsLatin(s[j]);
    assert x != [] ==> s[|run|] == x[0];

  }

  /** Stripping twice strips no more than stripping once. */
  lemma {:induction false} DropIdempotent(s: string)
    ensures DropGarbledRuns(DropGarbledRuns(s)) == DropGarbledRuns(s)
    decreases |s|
  {
    if s != [] {
      var d := DropGarbledRuns(s);
      if !IsLatin(s[0]) {
        DropIdempotent(s[1..]);
        assert d == [s[0]] + DropGarbledRuns(s[1..]);
        assert d[1..] == DropGarbledRuns(s[1..]);
      } else {
        var n := LatinRun(s, 0);
        var rest := DropGarbledRuns(s[n..]);
        LatinRunSpan(s, 0);
        DropIdempotent(s[n..]);
        DropStart(s[n..]);
        if KeepRun(s[..n]) == [] {
          assert d == rest;
        } else {
          var run := s[..n];
          assert d == run + rest;
          RunThenBreak(run, rest);
          assert d[..n] == run && d[n..] == rest;
        }
      }
    }
  }

  // ---------------------------------------------------------------------------
  // extractTexts (90-161)

  /** Keys whose values are never taken. */
  const IgnoredKeys: seq<string> :=
    ["type", "role", "id", "event", "event_type", "name", "status", "index", "mode"]

  /** `/(text|transcript|transcription|caption|content|message|value|delta|output)/`. */
  const WantedWords: seq<string> :=
    ["text", "transcript", "transcription", "caption", "content", "message", "value", "delta", "output"]

  predicate ContainsAny(s: string, words: seq<string>) {
    exists i :: 0 <= i < |words| && Contains(s, words[i])
  }

  /** `shouldTakeKey(key)`: an empty key is always taken; otherwise an ignored key is
      not, and any other key is taken when it mentions one of the wanted words. */
  predicate TakesKey(key: string) {
    |key| == 0 || (Lower(key) !in IgnoredKeys && ContainsAny(Lower(key), WantedWords))
  }

  /** `pushString(value)`: the trimmed text, when it is not empty. */
  function Push(v: string): (r: seq<string>)
    ensures |r| <= 1
    ensures r == [] <==> |Trim(v)| == 0
    ensures r != [] ==> r[0] == Trim(v)
  {
    var t := Trim(v);
    if |t| == 0 then [] else [t]
  }

  /** A scalar under the key `key`: taken when the key is. */
  function Scalar(key: string, v: string): seq<string> {
    if TakesKey(key) then Push(v) else []
  }

  /** `visit(node, keyHint)`: strings and numbers under a taken key, the items of an
      array under the array's key, and for an object its own text members followed by
      every member in order.  Booleans contribute nothing.  The `seen` set never
      fires on a tree that `JSON.parse` built, so it is not modelled. */
  function Visit(node: Json, hint: string): seq<string>
    decreases node, 2
  {
    match node
    case Null => []
    case Bool(_) => []
    case Num(v) => Scalar(hint, v)
    case Str(v) => Scalar(hint, v)
    case Arr(items) => VisitItems(items, hint)
    case Obj(fields) => OwnTexts(fields) + VisitMembers(fields)
  }

  function VisitItems(items: seq<Json>, hint: string): seq<string>
    decreases items, 1
  {
    if items == [] then [] else Visit(items[0], hint) + VisitItems(items[1..], hint)
  }

  /** A member that is a string. */
  function StringMember(fields: seq<(string, Json)>, key: string): Option<string> {
    var v := Lookup(fields, key);
    if v.Some? && v.value.Str? then Some(v.value.s) else None
  }

  /** `if (typeof node[key] === "string") pushString(node[key])`. */
  function PushMember(fields: seq<(string, Json)>, key: string): seq<string> {
    var m := StringMember(fields, key);
    if m.Some? then Push(m.value) else []
  }

  /** Lines 133-136: the `text` member, when the object's lower-cased `type` mentions
      "text" or is absent. */
  function TypedText(fields: seq<(string, Json)>): seq<string> {
    var ty := StringMember(fields, "type");
    var lowerType := if ty.Some? then Lower(ty.value) else "";
    if Contains(lowerType, "text") || |lowerType| == 0 then PushMember(fields, "text") else []
  }

  /** Lines 133-145: `text`, then `transcript`, `transcription` and `caption`. */
  function OwnTexts(fields: seq<(string, Json)>): seq<string> {
    TypedText(fields) + PushMember(fields, "transcript") +
    PushMember(fields, "transcription") + PushMember(fields, "caption")
  }

  /** Lines 148-156: one member of the entries loop. */
  function MemberTexts(key: string, value: Json): seq<string>
    decreases value, 3
  {
    if key == "text" || key == "type" || value == Null then []
    else if value.Str? then Scalar(key, value.s)
    else if value.Num? then Scalar(key, value.repr)
    else Visit(value, key)
  }

  /** Lines 147-157: the members in order. */
  function VisitMembers(fields: seq<(string, Json)>): seq<string>
    decreases fields, 1
  {
    if fields == [] then []
    else
      assert fields[0] in fields && fields[0].1 < fields[0];
      MemberTexts(fields[0].0, fields[0].1) + VisitMembers(fields[1..])
  }

  /** `extractTexts(nodes, bucket)`: what it appends to the bucket; a falsy or absent
      node contributes nothing. */
  function ExtractTexts(nodes: Option<Json>): (r: seq<string>)
    ensures nodes.None? ==> r == []
  {
    if nodes.None? || !Truthy(nodes.value) then [] else Visit(nodes.value, "")
  }

  /** What the extractor pushes: non-empty, trimmed strings. */
  predicate Pushable(texts: seq<string>) {
    forall i :: 0 <= i < |texts| ==> texts[i] != [] && Trimmed(texts[i])
  }

  lemma PushableAppend(a: seq<string>, b: seq<string>)
    requires Pushable(a) && Pushable(b)
    ensures Pushable(a + b)
  {
    forall i | 0 <= i < |a + b| ensures (a + b)[i] != [] && Trimmed((a + b)[i]) {
      if i < |a| { assert (a + b)[i] == a[i]; } else { assert (a + b)[i] == b[i - |a|]; }
    }
  }

  lemma PushPushable(v: string)
    ensures Pushable(Push(v))
  {
  }

  lemma PushMemberPushable(fields: seq<(string, Json)>, key: string)
    ensures Pushable(PushMember(fields, key))
  {
    var m := StringMember(fields, key);
    if m.Some? { PushPushable(m.value); }
  }

  lemma OwnTextsPushable(fields: seq<(string, Json)>)
    ensures Pushable(OwnTexts(fields))
  {
    var a := TypedText(fields);
    var b := PushMember(fields, "transcript");
    var c := PushMember(fields, "transcription");
    var d := PushMember(fields, "caption");
    assert Pushable(a) by { PushMemberPushable(fields, "text"); }
    assert Pushable(b) by { PushMemberPushable(fields, "transcript"); }
    assert Pushable(c) by { PushMemberPushable(fields, "transcription"); }
    assert Pushable(d) by { PushMemberPushable(fields, "caption"); }
    PushableAppend(a, b);
    PushableAppend(a + b, c);
    PushableAppend(a + b + c, d);
  }

  /** Everything the extractor pushes is a non-empty trimmed string. */
  lemma {:induction false} VisitPushable(node: Json, hint: string)
    ensures Pushable(Visit(node, hint))
    decreases node, 2
  {
    match node
    case Null =>
    case Bool(_) =>
    case Num(v) => PushPushable(v);
    case Str(v) => PushPushable(v);
    case Arr(items) => VisitItemsPushable(items, hint);
    case Obj(fields) =>
      OwnTextsPushable(fields);
      VisitMembersPushable(fields);
      PushableAppend(OwnTexts(fields), VisitMembers(fields));
  }

  lemma {:induction false} VisitItemsPushable(items: seq<Json>, hint: string)
    ensures Pushable(VisitItems(items, hint))
    decreases items, 1
  {
    if items != [] {
      VisitPushable(items[0], hint);
      VisitItemsPushable(items[1..], hint);
      PushableAppend(Visit(items[0], hint), VisitItems(items[1..], hint));
    }
  }

  lemma {:induction false} VisitMembersPushable(fields: seq<(string, Json)>)
    ensures Pushable(VisitMembers(fields))
    decreases fields, 1
  {
    if fields != [] {
      assert fields[0] in fields && fields[0].1 < fields[0];
      var key := fields[0].0;
      var value := fields[0].1;
      if value.Str? { PushPushable(value.s); }
      else if value.Num? { PushPushable(value.repr); }
      else { VisitPushable(value, key); }
      VisitMembersPushable(fields[1..]);
      PushableAppend(MemberTexts(key, value), VisitMembers(fields[1..]));
    }
  }

  /** Every text extracted from an event is non-empty and trimmed (`pushString`). */
  lemma ExtractPushable(nodes: Option<Json>)
    ensures Pushable(ExtractTexts(nodes))
  {
    if nodes.Some? { VisitPushable(nodes.value, ""); }
  }

  /** A string node is taken as its trimmed text, whatever its content. */
  lemma ExtractString(v: string)
    requires v != []
    ensures ExtractTexts(Some(Str(v))) == Push(v)
  {
    calc {
      ExtractTexts(Some(Str(v)));
      Visit(Str(v), "");
      Scalar("", v);
      { assert TakesKey(""); }
      Push(v);
    }
  }

  /** A falsy top-level node, such as the number 0, is skipped (line 91), although a
      0 inside an object under a taken key is pushed as "0". */
  lemma ExtractZero()
    ensures ExtractTexts(Some(Num("0"))) == []
    ensures ExtractTexts(Some(Obj([("delta", Num("0"))]))) == ["0"]
  {
    hide *;
    ZeroTop();
    var fs := [("delta", Num("0"))];
    ExtractObj(fs);
    PlainMemberOwnsNothing("delta", Num("0"));
    VisitOne("delta", Num("0"));
    ZeroDelta();
  }

  lemma ZeroTop()
    ensures ExtractTexts(Some(Num("0"))) == []
  {
  }

  lemma ZeroDelta()
    ensures MemberTexts("delta", Num("0")) == ["0"]
  {
    hide *;
    DeltaScalar();
    PushZero();
  }

  lemma DeltaScalar()
    ensures MemberTexts("delta", Num("0")) == Push("0")
  {
    assert MemberTexts("delta", Num("0")) == Scalar("delta", "0");
    DeltaTaken();
  }

  lemma PushZero()
    ensures Push("0") == ["0"]
  {
    TrimNoEdgeSpace("0");
  }

  /** An object node is visited as its own text members, then its members in order. */
  lemma ExtractObj(fs: seq<(string, Json)>)
    ensures ExtractTexts(Some(Obj(fs))) == OwnTexts(fs) + VisitMembers(fs)
  {
  }

  /** A single member contributes its own texts and nothing more. */
  lemma VisitOne(key: string, value: Json)
    ensures VisitMembers([(key, value)]) == MemberTexts(key, value)
  {
    assert [(key, value)][1..] == [];
  }

  /** An object whose only member is none of the text keys has no text of its own. */
  lemma PlainMemberOwnsNothing(key: string, v: Json)
    requires key != "type" && key != "text" && key != "transcript"
    requires key != "transcription" && key != "caption"
    ensures OwnTexts([(key, v)]) == []
  {
    var fs := [(key, v)];
    assert StringMember(fs, "type").None? && StringMember(fs, "text").None?;
    assert StringMember(fs, "transcript").None? && StringMember(fs, "transcription").None?;
    assert StringMember(fs, "caption").None?;
  }

  lemma DeltaTaken()
    ensures TakesKey("delta")
  {
    LowerFixed("delta");
    ContainsSelf("delta");
    WantedKey("delta", 7);
  }

  /** The keys besides `text` that `visit` pushes explicitly (lines 137-145). */
  predicate OwnTextKey(key: string) {
    key == "transcript" || key == "transcription" || key == "caption"
  }

  /** Each of them is also a key the member loop takes. */
  lemma OwnTextKeyTaken(key: string)
    requires OwnTextKey(key)
    ensures TakesKey(key)
  {
    WantedPlaces();
    if key == "transcript" {
      TranscriptLower();
      TranscriptNotIgnored();
      LiteralKeyTaken("transcript", 1);
    } else if key == "transcription" {
      TranscriptionFacts();
      LiteralKeyTaken("transcription", 2);
    } else {
      CaptionFacts();
      LiteralKeyTaken("caption", 3);
    }
  }

  lemma LiteralKeyTaken(key: string, w: nat)
    requires Lower(key) == key && key !in IgnoredKeys
    requires w < |WantedWords| && WantedWords[w] == key
    ensures TakesKey(key)
  {
    hide *;
    ContainsSelf(key);
    WantedKey(key, w);
  }

  lemma WantedPlaces()
    ensures |WantedWords| == 9
    ensures WantedWords[1] == "transcript" && WantedWords[2] == "transcription"
    ensures WantedWords[3] == "caption"
  {
  }

  lemma TranscriptLower()
    ensures Lower("transcript") == "transcript"
  {
    LowerFixed("transcript");
  }

  lemma TranscriptNotIgnored()
    ensures "transcript" !in IgnoredKeys
  {
    assert "transcript" != "event_type" by {
      assert "transcript"[0] != "event_type"[0];
    }
  }

  lemma TranscriptionFacts()
    ensures Lower("transcription") == "transcription" && "transcription" !in IgnoredKeys
  {
    LowerFixed("transcription");
    NotIgnoredByLength("transcription");
  }

  lemma CaptionFacts()
    ensures Lower("caption") == "caption" && "caption" !in IgnoredKeys
  {
    LowerFixed("caption");
    NotIgnoredByLength("caption");
  }

  /** No ignored key has seven letters or more than ten. */
  lemma NotIgnoredByLength(key: string)
    requires |key| == 7 || |key| > 10
    ensures key !in IgnoredKeys
  {
    forall i | 0 <= i < |IgnoredKeys| ensures |IgnoredKeys[i]| != |key| {
    }
  }

  /** A lower-case key that is not ignored and mentions a wanted word is taken. */
  lemma WantedKey(key: string, w: nat)
    requires Lower(key) == key && key !in IgnoredKeys
    requires w < |WantedWords| && Contains(key, WantedWords[w])
    ensures TakesKey(key)
  {
  }

  /** A lower-case ignored key is not taken. */
  lemma IgnoredKey(key: string)
    requires Lower(key) == key && key in IgnoredKeys
    ensures !TakesKey(key)
  {
  }

  /** A key written in lower case is its own lower-cased form. */
  lemma {:induction false} LowerFixed(s: string)
    requires forall i :: 0 <= i < |s| ==> !IsAsciiUpper(s[i]) && s[i] != 'Ü'
    ensures Lower(s) == s
  {
    assert forall i :: 0 <= i < |s| ==> Lower(s)[i] == s[i];
  }

  /** A one-member object visited from the top: its own text members, then the member. */
  lemma ExtractSingle(key: string, v: string)
    ensures ExtractTexts(Some(Obj([(key, Str(v))]))) ==
      OwnTexts([(key, Str(v))]) + MemberTexts(key, Str(v))
  {
    hide *;
    ExtractObj([(key, Str(v))]);
    VisitOne(key, Str(v));
  }

  /** A member under an ignored key, say `id`, is never taken. */
  lemma IdMemberIgnored(v: string)
    ensures ExtractTexts(Some(Obj([("id", Str(v))]))) == []
  {
    var fs := [("id", Str(v))];
    ExtractSingle("id", v);
    PlainMemberOwnsNothing("id", Str(v));
    assert !TakesKey("id") by {
      LowerFixed("id");
      IgnoredKey("id");
    }
  }

  /** The `text` member of an untyped object is taken exactly once: the member loop
      skips it. */
  lemma TextMemberOnce(v: string)
    ensures ExtractTexts(Some(Obj([("text", Str(v))]))) == Push(v)
  {
    var fs := [("text", Str(v))];
    ExtractSingle("text", v);
    assert TypedText(fs) == Push(v) by {
      assert StringMember(fs, "type").None?;
      assert StringMember(fs, "text") == Some(v);
    }
    assert OwnTexts(fs) == Push(v) by {
      assert StringMember(fs, "transcript").None? && StringMember(fs, "transcription").None?;
      assert StringMember(fs, "caption").None?;
    }
  }

  /** A `transcript`, `transcription` or `caption` string is taken twice: once by the
      explicit test and again by the member loop, which skips only `text` and `type`. */
  lemma OwnTextTakenTwice(key: string, v: string)
    requires OwnTextKey(key) && |Trim(v)| != 0
    ensures ExtractTexts(Some(Obj([(key, Str(v))]))) == [Trim(v), Trim(v)]
  {
    var fs := [(key, Str(v))];
    calc {
      ExtractTexts(Some(Obj(fs)));
      { ExtractSingle(key, v); }
      OwnTexts(fs) + MemberTexts(key, Str(v));
      { OwnTextOnce(key, v); }
      Push(v) + MemberTexts(key, Str(v));
      { OwnTextMember(key, v); }
      Push(v) + Push(v);
      [Trim(v), Trim(v)];
    }
  }

  lemma OwnTextMember(key: string, v: string)
    requires OwnTextKey(key)
    ensures MemberTexts(key, Str(v)) == Push(v)
  {
    OwnTextKeyTaken(key);
  }

  /** The explicit tests push the one member once. */
  lemma OwnTextOnce(key: string, v: string)
    requires OwnTextKey(key)
    ensures OwnTexts([(key, Str(v))]) == Push(v)
  {
    var fs := [(key, Str(v))];
    assert StringMember(fs, "type").None? && StringMember(fs, "text").None?;
    assert StringMember(fs, key) == Some(v);
    if key == "transcript" {
      assert StringMember(fs, "transcription").None? && StringMember(fs, "caption").None?;
    } else if key == "transcription" {
      assert StringMember(fs, "transcript").None? && StringMember(fs, "caption").None?;
    } else {
      assert StringMember(fs, "transcript").None? && StringMember(fs, "transcription").None?;
    }
  }

  // ---------------------------------------------------------------------------
  // updateUITranscript (164-174)

  /** One transcript line in the panel. */
  datatype Entry = Entry(id: Json, text: string, translit: string, final: bool)

  /** `.slice(-12)`. */
  const UiLimit: nat := 12

  /** `prev.filter((p) => p.id !== responseId)`. */
  function WithoutId(list: seq<Entry>, id: Json): (r: seq<Entry>)
    ensures |r| <= |list|
    ensures forall i :: 0 <= i < |r| ==> r[i].id != id && r[i] in list
    ensures forall e :: e in list && e.id != id ==> e in r
  {
    if list == [] then []
    else (if list[0].id == id then [] else [list[0]]) + WithoutId(list[1..], id)
  }

  /** The last `n` elements (all of them when there are fewer). */
  function LastN(xs: seq<Entry>, n: nat): (r: seq<Entry>)
    ensures |r| == Min(|xs|, n)
    ensures forall i :: 0 <= i < |r| ==> r[i] == xs[|xs| - |r| + i]
  {
    if |xs| <= n then xs else xs[|xs| - n..]
  }

  /** `updateUITranscript(responseId, text, translit, isFinal)` applied to the list. */
  function Updated(list: seq<Entry>, id: Json, text: string, translit: string, final: bool): seq<Entry> {
    LastN(WithoutId(list, id) + [Entry(id, text, translit, final)], UiLimit)
  }

  /** Each id appears at most once. */
  predicate DistinctIds(list: seq<Entry>) {
    forall i, j :: 0 <= i < j < |list| ==> list[i].id != list[j].id
  }

  /** What the panel keeps true of the list: distinct ids and at most 12 lines. */
  predicate UiValid(list: seq<Entry>) {
    |list| <= UiLimit && DistinctIds(list)
  }

  lemma {:induction false} WithoutIdDistinct(list: seq<Entry>, id: Json)
    requires DistinctIds(list)
    ensures DistinctIds(WithoutId(list, id))
  {
    hide *;
    if list != [] {
      var rest := WithoutId(list[1..], id);
      TailDistinct(list);
      WithoutIdDistinct(list[1..], id);
      WithoutIdStep(list, id);
      if list[0].id != id {
        HeadNotInRest(list, id);
        ConsDistinct(list[0], rest);
      }
    }
  }

  lemma TailDistinct(list: seq<Entry>)
    requires list != [] && DistinctIds(list)
    ensures DistinctIds(list[1..])
  {
    forall i, j | 0 <= i < j < |list[1..]| ensures list[1..][i].id != list[1..][j].id {
      assert list[1..][i] == list[i + 1] && list[1..][j] == list[j + 1];
    }
  }

  lemma WithoutIdStep(list: seq<Entry>, id: Json)
    requires list != []
    ensures WithoutId(list, id) ==
      if list[0].id == id then WithoutId(list[1..], id) else [list[0]] + WithoutId(list[1..], id)
  {
  }

  /** No line after the first has the first line's id. */
  lemma HeadNotInRest(list: seq<Entry>, id: Json)
    requires list != [] && DistinctIds(list)
    ensures var rest := WithoutId(list[1..], id);
      forall i :: 0 <= i < |rest| ==> rest[i].id != list[0].id
  {
    var rest := WithoutId(list[1..], id);
    forall i | 0 <= i < |rest| ensures rest[i].id != list[0].id {
      var j :| 0 <= j < |list[1..]| && list[1..][j] == rest[i];
      assert list[j + 1] == rest[i];
    }
  }

  lemma ConsDistinct(x: Entry, rest: seq<Entry>)
    requires DistinctIds(rest) && forall i :: 0 <= i < |rest| ==> rest[i].id != x.id
    ensures DistinctIds([x] + rest)
  {
    var xs := [x] + rest;
    forall i, j | 0 <= i < j < |xs| ensures xs[i].id != xs[j].id {
      assert xs[j] == rest[j - 1];
      if i > 0 { assert xs[i] == rest[i - 1]; }
    }
  }

  /** After an update the new line is the last one, it is the only line for its id,
      every other line was already shown, and at most 12 lines remain; a list with
      distinct ids keeps them. */
  lemma UpdatedShape(list: seq<Entry>, id: Json, text: string, translit: string, final: bool)
    ensures var r := Updated(list, id, text, translit, final);
      |r| <= UiLimit && r != [] && r[|r| - 1] == Entry(id, text, translit, final) &&
      (forall i :: 0 <= i < |r| - 1 ==> r[i].id != id && r[i] in list)
    ensures DistinctIds(list) ==> UiValid(Updated(list, id, text, translit, final))
  {
    var f := WithoutId(list, id);
    var xs := f + [Entry(id, text, translit, final)];
    var r := LastN(xs, UiLimit);
    forall i | 0 <= i < |r| - 1 ensures r[i].id != id && r[i] in list {
      LastOfAppended(f, Entry(id, text, translit, final), i);
    }
    if DistinctIds(list) {
      WithoutIdDistinct(list, id);
      AppendedDistinct(f, Entry(id, text, translit, final));
    }
  }

  lemma LastOfAppended(f: seq<Entry>, e: Entry, i: int)
    requires 0 <= i < |LastN(f + [e], UiLimit)| - 1
    ensures LastN(f + [e], UiLimit)[i] in f
  {
    var xs := f + [e];
    var r := LastN(xs, UiLimit);
    assert r[i] == xs[|xs| - |r| + i];
  }

  lemma AppendedDistinct(f: seq<Entry>, e: Entry)
    requires DistinctIds(f) && forall i :: 0 <= i < |f| ==> f[i].id != e.id
    ensures DistinctIds(LastN(f + [e], UiLimit))
  {
    SnocDistinct(f, e);
    SuffixDistinct(f + [e], LastN(f + [e], UiLimit));
  }

  /** A line whose id is new keeps the ids distinct. */
  lemma SnocDistinct(f: seq<Entry>, e: Entry)
    requires DistinctIds(f) && forall i :: 0 <= i < |f| ==> f[i].id != e.id
    ensures DistinctIds(f + [e])
  {
    var xs := f + [e];
    forall i, j | 0 <= i < j < |xs| ensures xs[i].id != xs[j].id {
      assert xs[i] == f[i];
      if j < |f| { assert xs[j] == f[j]; } else { assert xs[j] == e; }
    }
  }

  /** The last lines of a list with distinct ids have distinct ids. */
  lemma SuffixDistinct(xs: seq<Entry>, r: seq<Entry>)
    requires DistinctIds(xs) && |r| <= |xs|
    requires forall i :: 0 <= i < |r| ==> r[i] == xs[|xs| - |r| + i]
    ensures DistinctIds(r)
  {
    forall i, j | 0 <= i < j < |r| ensures r[i].id != r[j].id {
      assert r[i] == xs[|xs| - |r| + i] && r[j] == xs[|xs| - |r| + j];
    }
  }

  /** Removing an id keeps a valid list valid and drops every line for that id. */
  lemma WithoutIdValid(list: seq<Entry>, id: Json)
    requires UiValid(list)
    ensures UiValid(WithoutId(list, id))
  {
    WithoutIdDistinct(list, id);
  }

  /** Lines for other ids survive an update as long as fewer than 12 lines remain. */
  lemma UpdatedKeepsRecent(list: seq<Entry>, id: Json, text: string, translit: string, final: bool, e: Entry)
    requires e in list && e.id != id && |WithoutId(list, id)| < UiLimit
    ensures e in Updated(list, id, text, translit, final)
  {
    var xs := WithoutId(list, id) + [Entry(id, text, translit, final)];
    assert e in xs;
  }
}

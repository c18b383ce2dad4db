/** The HSK word picker (src/components/HSKPicker.jsx): toggling the selected levels,
    the `levels` query it sends to the server, normalising the words the server
    returns, and drawing a random sample of them by a partial Fisher-Yates shuffle.
    `Math.random()` is the oracle `rnd`: its k-th draw is `rnd(k)`. */
module HskPicker {
  import opened Wrappers
  import opened Text
  import opened Json
  import opened Lists
  import S = Server

  /** A JavaScript number. */
  datatype Number = Finite(v: real) | NaN | PosInf | NegInf

  // ---------------------------------------------------------------------------
  // toggleLevel (30-37)

  predicate SortedAsc(xs: seq<int>) {
    forall i, j :: 0 <= i < j < |xs| ==> xs[i] <= xs[j]
  }

  function Insert(xs: seq<int>, x: int): (r: seq<int>)
    requires SortedAsc(xs)
    ensures SortedAsc(r) && multiset(r) == multiset(xs) + multiset{x}
  {
    if xs == [] then [x]
    else if x <= xs[0] then
      InsertFront(xs, x);
      [x] + xs
    else
      var rest := Insert(xs[1..], x);
      InsertBehind(xs, x, rest);
      [xs[0]] + rest
  }

  /** A value no greater than the head goes in front. */
  lemma InsertFront(xs: seq<int>, x: int)
    requires SortedAsc(xs) && xs != [] && x <= xs[0]
    ensures SortedAsc([x] + xs) && multiset([x] + xs) == multiset(xs) + multiset{x}
  {
  }

  /** A value greater than the head goes behind it, among the rest. */
  lemma InsertBehind(xs: seq<int>, x: int, rest: seq<int>)
    requires SortedAsc(xs) && xs != [] && xs[0] < x
    requires SortedAsc(rest) && multiset(rest) == multiset(xs[1..]) + multiset{x}
    ensures SortedAsc([xs[0]] + rest) && multiset([xs[0]] + rest) == multiset(xs) + multiset{x}
  {
    assert xs == [xs[0]] + xs[1..];
    forall j | 0 <= j < |rest| ensures xs[0] <= rest[j] {
      assert rest[j] in multiset(rest);
      if rest[j] != x {
        assert rest[j] in multiset(xs[1..]);
      }
    }
    var r := [xs[0]] + rest;
    forall i, j | 0 <= i < j < |r| ensures r[i] <= r[j] {
      if i > 0 {
        assert r[i] == rest[i - 1] && r[j] == rest[j - 1];
      }
    }
  }

  /** `.sort((a, b) => a - b)`. */
  function SortAsc(xs: seq<int>): (r: seq<int>)
    ensures SortedAsc(r) && multiset(r) == multiset(xs)
  {
    if xs == [] then []
    else
      assert xs == xs[..|xs| - 1] + [xs[|xs| - 1]];
      Insert(SortAsc(xs[..|xs| - 1]), xs[|xs| - 1])
  }

  /** `.filter(x => x !== lv)`. */
  function Without(xs: seq<int>, lv: int): (r: seq<int>)
    ensures forall x :: x in r <==> x in xs && x != lv
  {
    if xs == [] then []
    else (if xs[0] == lv then [] else [xs[0]]) + Without(xs[1..], lv)
  }

  /** Removing every `lv` keeps every other element as often as it was. */
  lemma {:induction false} WithoutCount(xs: seq<int>, lv: int, x: int)
    ensures multiset(Without(xs, lv))[x] == if x == lv then 0 else multiset(xs)[x]
  {
    if xs != [] {
      WithoutCount(xs[1..], lv, x);
      assert xs == [xs[0]] + xs[1..];
      var head := if xs[0] == lv then [] else [xs[0]];
      assert Without(xs, lv) == head + Without(xs[1..], lv);
      assert multiset(Without(xs, lv)) == multiset(head) + multiset(Without(xs[1..], lv));
      assert multiset(xs) == multiset([xs[0]]) + multiset(xs[1..]);
    }
  }

  /** Removing elements keeps an ascending list ascending. */
  lemma {:induction false} WithoutSorted(xs: seq<int>, lv: int)
    requires SortedAsc(xs)
    ensures SortedAsc(Without(xs, lv))
  {
    if xs != [] {
      WithoutSorted(xs[1..], lv);
      var w := Without(xs, lv);
      var rest := Without(xs[1..], lv);
      if xs[0] != lv {
        assert w == [xs[0]] + rest;
        forall j | 0 < j < |w| ensures xs[0] <= w[j] {
          assert w[j] == rest[j - 1] && rest[j - 1] in xs[1..];
        }
      }
    }
  }

  /** `toggleLevel(lv)` on the previous selection. */
  function Toggle(prev: seq<int>, lv: int): seq<int> {
    if lv in prev then Without(prev, lv) else SortAsc(prev + [lv])
  }

  /** Toggling flips the membership of `lv` and keeps every other level's. */
  lemma ToggleFlips(prev: seq<int>, lv: int)
    ensures lv in Toggle(prev, lv) <==> lv !in prev
    ensures forall x :: x != lv ==> (x in Toggle(prev, lv) <==> x in prev)
  {
    if lv !in prev {
      var r := SortAsc(prev + [lv]);
      forall x ensures x in r <==> x in prev || x == lv {
        calc {
          x in r;
          x in multiset(r);
          x in multiset(prev + [lv]);
          x in prev + [lv];
        }
      }
    }
  }

  /** An added level lands in an ascending list holding the previous levels and it. */
  lemma ToggleAddsSorted(prev: seq<int>, lv: int)
    requires lv !in prev
    ensures SortedAsc(Toggle(prev, lv))
    ensures multiset(Toggle(prev, lv)) == multiset(prev) + multiset{lv}
  {
    assert multiset(prev + [lv]) == multiset(prev) + multiset{lv};
  }

  /** Two ascending lists with the same elements are the same list. */
  lemma {:induction false} SortedUnique(a: seq<int>, b: seq<int>)
    requires SortedAsc(a) && SortedAsc(b) && multiset(a) == multiset(b)
    ensures a == b
  {
    if a == [] {
      assert |b| == |multiset(b)| == 0;
    } else {
      SameHead(a, b);
      SameRest(a, b);
      SortedUnique(a[1..], b[1..]);
      assert a == [a[0]] + a[1..] && b == [b[0]] + b[1..];
    }
  }

  /** Both lists start with the least element. */
  lemma SameHead(a: seq<int>, b: seq<int>)
    requires SortedAsc(a) && SortedAsc(b) && multiset(a) == multiset(b) && a != []
    ensures b != [] && a[0] == b[0]
  {
    assert a[0] in multiset(b);
    var i :| 0 <= i < |b| && b[i] == a[0];
    assert b[0] in multiset(a);
    var j :| 0 <= j < |a| && a[j] == b[0];
  }

  /** Taking the same head off both leaves the same elements. */
  lemma SameRest(a: seq<int>, b: seq<int>)
    requires a != [] && b != [] && a[0] == b[0] && multiset(a) == multiset(b)
    ensures multiset(a[1..]) == multiset(b[1..])
  {
    assert a == [a[0]] + a[1..] && b == [b[0]] + b[1..];
    assert multiset(a) == multiset{a[0]} + multiset(a[1..]);
    assert multiset(b) == multiset{a[0]} + multiset(b[1..]);
    assert multiset(a[1..]) == multiset(a) - multiset{a[0]};
    assert multiset(b[1..]) == multiset(b) - multiset{a[0]};
  }

  /** Toggling a level on and off again restores an ascending selection. */
  lemma ToggleTwice(prev: seq<int>, lv: int)
    requires SortedAsc(prev) && lv !in prev
    ensures Toggle(Toggle(prev, lv), lv) == prev
  {
    var r := Toggle(prev, lv);
    ToggleFlips(prev, lv);
    ToggleAddsSorted(prev, lv);
    var w := Without(r, lv);
    WithoutSorted(r, lv);
    forall x ensures multiset(w)[x] == multiset(prev)[x] {
      WithoutCount(r, lv, x);
    }
    assert multiset(w) == multiset(prev);
    SortedUnique(w, prev);
  }

  // ---------------------------------------------------------------------------
  // The `levels` query (27, 54-55)

  /** `levels.join(',')`. */
  function LevelsParam(levels: seq<nat>): string {
    Join(Numerals(levels), ",")
  }

  function Numerals(levels: seq<nat>): (r: seq<string>)
    ensures |r| == |levels|
    ensures forall k :: 0 <= k < |r| ==> r[k] == NatToString(levels[k])
  {
    if levels == [] then [] else [NatToString(levels[0])] + Numerals(levels[1..])
  }

  /** The server answers the picker's query with exactly the cached words of the
      selected levels. */
  lemma LevelsQueryRoundTrip(cache: seq<S.HskItem>, levels: seq<nat>)
    requires levels != [] && forall k :: 0 <= k < |levels| ==> 1 <= levels[k] <= 6
    ensures forall x :: x in S.HskQuery(cache, Some(Str(LevelsParam(levels)))).items <==>
      x in cache && x.level in levels
  {
    var q := LevelsParam(levels);
    LevelsParamTrimmed(levels);
    assert TextOr(Some(Str(q)), "") == q;
    forall l ensures l in S.WantedLevels(q) <==> l in levels {
      LevelsWanted(levels, l);
    }
  }

  /** The joined numerals carry no surrounding white space. */
  lemma LevelsParamTrimmed(levels: seq<nat>)
    requires levels != []
    ensures Trim(LevelsParam(levels)) == LevelsParam(levels) != ""
  {
    var ns := Numerals(levels);
    forall k | 0 <= k < |ns|
      ensures ns[k] != [] && IsAsciiDigit(ns[k][0]) && IsAsciiDigit(ns[k][|ns[k]| - 1])
    {
    }
    JoinEnds(ns);
    TrimNoEdgeSpace(LevelsParam(levels));
  }

  /** Splitting the query at commas gives the numerals back. */
  lemma LevelsParamSplit(levels: seq<nat>)
    requires levels != []
    ensures SplitOn(LevelsParam(levels), ',') == Numerals(levels)
  {
    var ns := Numerals(levels);
    forall k | 0 <= k < |ns| ensures ',' !in ns[k] {
      var d := ns[k];
      assert forall i :: 0 <= i < |d| ==> IsAsciiDigit(d[i]);
    }
    JoinSplitOn(ns, ',');
  }

  /** The server reads back exactly the selected levels. */
  lemma LevelsWanted(levels: seq<nat>, l: int)
    requires levels != [] && forall k :: 0 <= k < |levels| ==> 1 <= levels[k] <= 6
    ensures l in S.WantedLevels(LevelsParam(levels)) <==> l in levels
  {
    hide *;
    var q := LevelsParam(levels);
    var ns := Numerals(levels);
    LevelsParamSplit(levels);
    if l in levels {
      var k :| 0 <= k < |levels| && levels[k] == l;
      assert ns[k] in SplitOn(q, ',');
      S.CoerceLevelOfNumeral(levels[k], "");
    }
    if l in S.WantedLevels(q) {
      var part :| part in SplitOn(q, ',') && S.CoerceLevel(Some(part), "") == l;
      var k :| 0 <= k < |ns| && ns[k] == part;
      S.CoerceLevelOfNumeral(levels[k], "");
    }
  }

  /** A join of numerals starts and ends with a digit. */
  lemma {:induction false} JoinEnds(ns: seq<string>)
    requires ns != []
    requires forall k :: 0 <= k < |ns| ==>
      (ns[k] != [] && IsAsciiDigit(ns[k][0]) && IsAsciiDigit(ns[k][|ns[k]| - 1]))
    ensures var q := Join(ns, ",");
      q != [] && IsAsciiDigit(q[0]) && IsAsciiDigit(q[|q| - 1])
  {
    if |ns| > 1 {
      JoinEnds(ns[1..]);
      var rest := Join(ns[1..], ",");
      assert Join(ns, ",") == ns[0] + "," + rest;
    }
  }

  // ---------------------------------------------------------------------------
  // sampleRandom (39-50)

  /** `Math.ceil(n)`. */
  function Ceil(n: real): int {
    -((-n).Floor)
  }

  /** Every draw of `Math.random()` lies in [0, 1). */
  ghost predicate Draws(rnd: nat -> real) {
    forall k: nat :: 0.0 <= rnd(k) < 1.0
  }

  /** `Math.floor(r * (i + 1))` for a draw `r`: an index in `0..i`. */
  function Pick(r: real, i: nat): (j: nat)
    requires 0.0 <= r < 1.0
    ensures j <= i
  {
    var c := (i + 1) as real;
    ScaleBelow(r, c);
    (r * c).Floor
  }

  lemma ScaleBelow(r: real, c: real)
    requires 0.0 <= r < 1.0 && c > 0.0
    ensures 0.0 <= r * c < c
  {
    assert c - r * c == (1.0 - r) * c;
  }

  function Swap<T>(s: seq<T>, i: nat, j: nat): (r: seq<T>)
    requires i < |s| && j < |s|
    ensures |r| == |s|
  {
    s[i := s[j]][j := s[i]]
  }

  /** A swap only reorders. */
  lemma SwapPerm<T>(s: seq<T>, i: nat, j: nat)
    requires i < |s| && j < |s|
    ensures multiset(Swap(s, i, j)) == multiset(s)
  {
    var t := s[i := s[j]];
    assert multiset(t) == multiset(s) - multiset{s[i]} + multiset{s[j]};
    assert multiset(t[j := s[i]]) == multiset(t) - multiset{t[j]} + multiset{s[i]};
  }

  /** The array after the first `m` rounds of the loop: round `k` swaps the element at
      `|s| - 1 - k` with one at a drawn index no greater. */
  function Shuffle<T>(s: seq<T>, m: nat, rnd: nat -> real): (r: seq<T>)
    requires m <= |s| && Draws(rnd)
    ensures |r| == |s|
  {
    if m == 0 then s
    else
      var i := |s| - m;
      Swap(Shuffle(s, m - 1, rnd), i, Pick(rnd(m - 1), i))
  }

  /** The shuffle only reorders: every word stays as often as it was. */
  lemma {:induction false} ShufflePerm<T>(s: seq<T>, m: nat, rnd: nat -> real)
    requires m <= |s| && Draws(rnd)
    ensures multiset(Shuffle(s, m, rnd)) == multiset(s)
  {
    hide Swap;
    if m > 0 {
      var i := |s| - m;
      ShufflePerm(s, m - 1, rnd);
      SwapPerm(Shuffle(s, m - 1, rnd), i, Pick(rnd(m - 1), i));
    }
  }

  /** `sampleRandom(items, n)`. */
  function Sample<T>(items: seq<T>, n: Number, rnd: nat -> real): seq<T>
    requires Draws(rnd)
  {
    if |items| == 0 then []
    else if !n.Finite? || n.v <= 0.0 then []
    else if |items| as real <= n.v then items
    else
      var m := Ceil(n.v);
      CeilBounds(n.v, |items|);
      Shuffle(items, m, rnd)[|items| - m..]
  }

  /** For `0 < n < len` the loop runs `ceil(n)` rounds, at least one and at most `len`. */
  lemma CeilBounds(n: real, len: nat)
    requires 0.0 < n < len as real
    ensures 1 <= Ceil(n) <= len
  {
  }

  /** A whole number is below `ceil(n)` exactly when it is below `n`. */
  lemma BelowCeil(n: real, k: int)
    ensures k < Ceil(n) <==> (k as real) < n
  {
  }

  /** An empty list, or a count that is not a positive finite number, gives no words. */
  lemma SampleEmpty<T>(items: seq<T>, n: Number, rnd: nat -> real)
    requires Draws(rnd)
    requires |items| == 0 || !n.Finite? || n.v <= 0.0
    ensures Sample(items, n, rnd) == []
  {
  }

  /** When there are no more words than asked for, all of them come back in order. */
  lemma SampleAll<T>(items: seq<T>, n: Number, rnd: nat -> real)
    requires Draws(rnd)
    requires |items| > 0 && n.Finite? && |items| as real <= n.v
    ensures Sample(items, n, rnd) == items
  {
  }

  /** Otherwise exactly `ceil(n)` words come back (n of them for a whole n), each as
      often at most as it occurs in the input. */
  lemma SampleDraws<T>(items: seq<T>, n: Number, rnd: nat -> real)
    requires Draws(rnd)
    requires n.Finite? && 0.0 < n.v < |items| as real
    ensures |Sample(items, n, rnd)| == Ceil(n.v)
    ensures n.v == n.v.Floor as real ==> |Sample(items, n, rnd)| == n.v.Floor
    ensures multiset(Sample(items, n, rnd)) <= multiset(items)
  {
    var m := Ceil(n.v);
    CeilBounds(n.v, |items|);
    var t := Shuffle(items, m, rnd);
    ShufflePerm(items, m, rnd);
    assert t == t[..|items| - m] + t[|items| - m..];
    assert multiset(t) == multiset(t[..|items| - m]) + multiset(t[|items| - m..]);
  }

  /** `sampleRandom(items, n)`, shuffling a copy: the input array is not modified. */
  method SampleRandom<T>(items: array<T>, n: Number, rnd: nat -> real) returns (r: seq<T>)
    requires Draws(rnd)
    ensures r == Sample(items[..], n, rnd)
  {
    if items.Length == 0 || !n.Finite? || n.v <= 0.0 {
      SampleEmpty(items[..], n, rnd);
      return [];
    }
    if items.Length as real <= n.v {
      SampleAll(items[..], n, rnd);
      return items[..];
    }
    var arr := CopyOf(items);
    PartialShuffle(arr, n.v, rnd);
    var start := (arr.Length as real - n.v).Floor;
    StartIndex(arr.Length, n.v);
    SampleTail(items[..], n, rnd, arr[..], start);
    r := arr[start..];
  }

  /** The shuffled copy, read from `arr.length - ceil(n)` on, is the sample. */
  lemma SampleTail<T>(s: seq<T>, n: Number, rnd: nat -> real, t: seq<T>, start: int)
    requires Draws(rnd) && n.Finite? && 0.0 < n.v < |s| as real
    requires 1 <= Ceil(n.v) <= |s| && t == Shuffle(s, Ceil(n.v), rnd)
    requires start == |s| - Ceil(n.v)
    ensures t[start..] == Sample(s, n, rnd)
  {
    hide *;
    SampleIsShuffle(s, n, rnd);
  }

  /** The Fisher-Yates loop: `ceil(n)` rounds from the last slot down. */
  method PartialShuffle<T>(arr: array<T>, n: real, rnd: nat -> real)
    requires Draws(rnd) && 0.0 < n < arr.Length as real
    modifies arr
    ensures 1 <= Ceil(n) <= arr.Length
    ensures arr[..] == Shuffle(old(arr[..]), Ceil(n), rnd)
  {
    ghost var s := arr[..];
    ghost var m := Ceil(n);
    CeilBounds(n, arr.Length);
    var i: int := arr.Length - 1;
    ghost var k: nat := 0;
    LoopGuard(arr.Length, i, n);
    while (i as real) > (arr.Length - 1) as real - n
      invariant arr.Length == |s| && k == arr.Length - 1 - i <= m
      invariant arr[..] == Shuffle(s, k, rnd)
    {
      LoopGuard(arr.Length, i, n);
      var j := Pick(rnd(arr.Length - 1 - i), i);
      ghost var before := arr[..];
      SwapAt(arr, i, j);
      ShuffleStep(s, before, k, j, rnd);
      i := i - 1;
      k := k + 1;
      LoopGuard(arr.Length, i, n);
    }
    assert arr.Length - 1 - i == m;
  }

  /** `[arr[i], arr[j]] = [arr[j], arr[i]]`. */
  method SwapAt<T>(arr: array<T>, i: nat, j: nat)
    requires i < arr.Length && j < arr.Length
    modifies arr
    ensures arr[..] == Swap(old(arr[..]), i, j)
  {
    arr[i], arr[j] := arr[j], arr[i];
  }

  /** The loop runs while fewer than `ceil(n)` rounds are done. */
  lemma LoopGuard(len: nat, i: int, n: real)
    ensures (i as real > (len - 1) as real - n) <==> (len - 1 - i) < Ceil(n)
  {
    BelowCeil(n, len - 1 - i);
  }

  /** `arr.length - n`, cut down to a whole number, is `arr.length - ceil(n)`. */
  lemma StartIndex(len: nat, n: real)
    ensures (len as real - n).Floor == len - Ceil(n)
  {
  }

  /** A partial count is served by the last `ceil(n)` slots after `ceil(n)` rounds. */
  lemma SampleIsShuffle<T>(s: seq<T>, n: Number, rnd: nat -> real)
    requires Draws(rnd) && n.Finite? && 0.0 < n.v < |s| as real
    ensures 1 <= Ceil(n.v) <= |s|
    ensures Sample(s, n, rnd) == Shuffle(s, Ceil(n.v), rnd)[|s| - Ceil(n.v)..]
  {
    CeilBounds(n.v, |s|);
  }

  /** `[...items]`. */
  method CopyOf<T>(items: array<T>) returns (arr: array<T>)
    ensures fresh(arr) && arr[..] == items[..]
  {
    arr := new T[items.Length](k requires 0 <= k < items.Length reads items => items[k]);
  }

  /** One more round of the loop: swap the slot `|s| - 1 - k` with the drawn one. */
  lemma ShuffleStep<T>(s: seq<T>, before: seq<T>, k: nat, j: nat, rnd: nat -> real)
    requires k < |s| && Draws(rnd) && before == Shuffle(s, k, rnd)
    requires j == Pick(rnd(k), |s| - 1 - k)
    ensures Swap(before, |s| - 1 - k, j) == Shuffle(s, k + 1, rnd)
  {
  }

  // ---------------------------------------------------------------------------
  // Normalising the server's answer (57-69)

  /** A word as the picker keeps it; `level` is the value given (or 1), as the
      conversion `Number(...)` is not modelled. */
  datatype Word = Word(level: Json, hanzi: string, pinyin: string, english: string)

  /** `(Array.isArray(j) ? j : j.items) || []`; `None` where reading it or mapping
      over it throws (a `null` answer, or a truthy `items` that is not an array). */
  function ResponseItems(j: Json): Option<seq<Json>> {
    if j.Arr? then Some(j.items)
    else if j == Null then None
    else
      var f := Field(Some(j), "items");
      if f.None? || !Truthy(f.value) then Some([])
      else if f.value.Arr? then Some(f.value.items)
      else None
  }

  /** The map step for one item; `None` where the filter drops it. */
  function NormalizeWord(x: Json): Option<Word> {
    var P := Some(x);
    var lv := Field(P, "level");
    var hanzi := Trim(TextOr(Field(P, "hanzi"), ""));
    if hanzi == [] then None
    else
      Some(Word(if lv.None? || lv.value == Null then Num("1") else lv.value, hanzi,
                Trim(TextOr(Field(P, "pinyin"), "")), Trim(TextOr(Field(P, "english"), ""))))
  }

  /** `items.map(...).filter(w => w.hanzi)`; `None` when an item is `null`, as reading
      its `level` throws. */
  function Normalized(items: seq<Json>): Option<seq<Word>> {
    if exists k :: 0 <= k < |items| && items[k] == Null then None
    else Some(FilterMap(items, NormalizeWord))
  }

  /** Every word kept has a non-empty trimmed Hanzi and trimmed pinyin and English, and
      comes from an item; every item with a non-blank Hanzi is kept. */
  lemma NormalizedWords(items: seq<Json>)
    requires Normalized(items).Some?
    ensures forall w :: w in Normalized(items).value ==>
      w.hanzi != [] && Trimmed(w.hanzi) && Trimmed(w.pinyin) && Trimmed(w.english) &&
      exists k :: 0 <= k < |items| && NormalizeWord(items[k]) == Some(w)
    ensures forall k :: 0 <= k < |items| && Trim(TextOr(Field(Some(items[k]), "hanzi"), "")) != [] ==>
      NormalizeWord(items[k]).Some? && NormalizeWord(items[k]).value in Normalized(items).value
  {
    var ws := Normalized(items).value;
    forall w | w in ws
      ensures w.hanzi != [] && Trimmed(w.hanzi) && Trimmed(w.pinyin) && Trimmed(w.english)
      ensures exists k :: 0 <= k < |items| && NormalizeWord(items[k]) == Some(w)
    {
      FilterMapFrom(items, NormalizeWord, w);
    }
    forall k | 0 <= k < |items| && Trim(TextOr(Field(Some(items[k]), "hanzi"), "")) != []
      ensures NormalizeWord(items[k]).Some? && NormalizeWord(items[k]).value in ws
    {
      FilterMapCovers(items, NormalizeWord, k);
    }
  }

  /** `Math.max(1, Number(limit) || 1)`, for `Number(limit)`. */
  function SampleSize(limit: Number): (r: Number)
    ensures r == PosInf || (r.Finite? && r.v >= 1.0)
    ensures limit.Finite? && limit.v >= 1.0 ==> r == limit
  {
    match limit
    case NaN => Finite(1.0)
    case NegInf => Finite(1.0)
    case PosInf => PosInf
    case Finite(v) => Finite(if v < 1.0 then 1.0 else v)
  }

  /** The sample `fetchHSK` previews; `None` where the request fails. */
  function Preview(j: Json, limit: Number, rnd: nat -> real): Option<seq<Word>>
    requires Draws(rnd)
  {
    var items := ResponseItems(j);
    if items.None? then None
    else
      var words := Normalized(items.value);
      if words.None? then None
      else Some(Sample(words.value, SampleSize(limit), rnd))
  }

  /** Any finite limit previews at least one word when there are words; an infinite
      limit previews none, as `sampleRandom` refuses a non-finite count. */
  lemma PreviewSize(j: Json, limit: Number, rnd: nat -> real)
    requires Draws(rnd)
    requires ResponseItems(j).Some? && Normalized(ResponseItems(j).value).Some?
    ensures var words := Normalized(ResponseItems(j).value).value;
      var p := Preview(j, limit, rnd).value;
      (limit != PosInf && words != [] ==> 1 <= |p| <= |words|) &&
      (limit == PosInf ==> p == []) &&
      multiset(p) <= multiset(words)
  {
    var words := Normalized(ResponseItems(j).value).value;
    assert Preview(j, limit, rnd) == Some(Sample(words, SampleSize(limit), rnd));
    SampleSizeBounds(words, SampleSize(limit), rnd);
  }

  /** A count of at least one takes at least one word from a non-empty list. */
  lemma SampleSizeBounds(words: seq<Word>, n: Number, rnd: nat -> real)
    requires Draws(rnd)
    requires n == PosInf || (n.Finite? && n.v >= 1.0)
    ensures var p := Sample(words, n, rnd);
      (n != PosInf && words != [] ==> 1 <= |p| <= |words|) &&
      (n == PosInf ==> p == []) &&
      multiset(p) <= multiset(words)
  {
    if n.Finite? && words != [] && n.v < |words| as real {
      SampleDraws(words, n, rnd);
      CeilBounds(n.v, |words|);
    }
  }
}

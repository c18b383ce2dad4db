/** The pure rules of the HTTP server (server/index.js): level coercion, the HSK workbook
    rows and the `/api/hsk` filter, the realtime-session payload, the text-to-speech voice
    whitelist and the server-sent-events writer of `/api/chat/stream`. */
module Server {
  import opened Wrappers
  import opened Text
  import opened Json
  import P = Persona
  import opened Lists

  // ---------------------------------------------------------------------------
  // coerceLevel

  predicate AllDigits(s: string) { forall i :: 0 <= i < |s| ==> IsAsciiDigit(s[i]) }

  /** The position of the first ASCII digit of `s`, or `|s|`. */
  function DigitStart(s: string): (r: nat)
    ensures r <= |s|
    ensures forall i :: 0 <= i < r ==> !IsAsciiDigit(s[i])
    ensures r < |s| ==> IsAsciiDigit(s[r])
  {
    if s == [] || IsAsciiDigit(s[0]) then 0 else 1 + DigitStart(s[1..])
  }

  /** The longest prefix of `s` made of digits. */
  function LeadingDigits(s: string): (r: string)
    ensures StartsWith(s, r) && AllDigits(r)
    ensures |r| < |s| ==> !IsAsciiDigit(s[|r|])
  {
    if s == [] || !IsAsciiDigit(s[0]) then [] else [s[0]] + LeadingDigits(s[1..])
  }

  /** `s.match(/(\d+)/)?.[1]`: the leftmost maximal run of digits (`\d` is ASCII only). */
  function FirstDigitRun(s: string): (r: Option<string>)
    ensures r.None? <==> forall i :: 0 <= i < |s| ==> !IsAsciiDigit(s[i])
    ensures r.Some? ==> r.value != [] && AllDigits(r.value) && OccursAt(s, r.value, DigitStart(s))
    ensures r.Some? ==> var e := DigitStart(s) + |r.value|; e == |s| || !IsAsciiDigit(s[e])
  {
    var i := DigitStart(s);
    if i == |s| then None else Some(LeadingDigits(s[i..]))
  }

  /** The least decimal integer `Number` rounds to `Infinity`: halfway between the largest
      finite double, (2^53 - 1) * 2^971, and 2^1024 (the tie rounds to the even 2^1024). */
  const InfinityThreshold: nat := 0xFFFFFFFFFFFFFC00000000000000000000000000000000000000000000000000000000000000000000000000000000000000000000000000000000000000000000000000000000000000000000000000000000000000000000000000000000000000000000000000000000000000000000000000000000000000000000000000

  /** `Math.max(1, Math.min(6, Number.isFinite(n) ? Math.round(n) : 1))` for `n = Number(digits)`:
      a digit run is a non-negative integer, so rounding keeps it. */
  function LevelOfValue(v: nat): (r: int)
    ensures 1 <= r <= 6
    ensures 1 <= v <= 6 ==> r == v
    ensures 6 < v < InfinityThreshold ==> r == 6
    ensures v == 0 || v >= InfinityThreshold ==> r == 1
  {
    if v >= InfinityThreshold then 1 else if v < 1 then 1 else if v > 6 then 6 else v
  }

  /** The last integer below the threshold is still a finite double, so it is clamped to 6. */
  lemma LevelJustBelowInfinity()
    ensures LevelOfValue(InfinityThreshold - 1) == 6
  {
  }

  /** `coerceLevel(val, sheetName)`: `val` is `String(val ?? '')` (`None` for a missing value). */
  function CoerceLevel(val: Option<string>, sheetName: string): (r: int)
    ensures 1 <= r <= 6
  {
    var s := Trim(if val.Some? then val.value else "");
    var m := if FirstDigitRun(s).Some? then FirstDigitRun(s) else FirstDigitRun(sheetName);
    if m.None? then 1 else LevelOfValue(DigitsValue(m.value))
  }

  /** The decimal numeral of a level is read back as that level, whatever the sheet is called. */
  lemma CoerceLevelOfNumeral(n: nat, sheetName: string)
    requires 1 <= n <= 6
    ensures CoerceLevel(Some(NatToString(n)), sheetName) == n
  {
    var s := NatToString(n);
    assert s == [('0' as int + n) as char];
    assert Trim(s) == s;
    assert FirstDigitRun(s) == Some(s);
    DigitsRoundTrip(n);
  }

  /** When the value holds a digit the sheet name plays no part. */
  lemma CoerceLevelIgnoresSheet(val: string, a: string, b: string)
    requires exists i :: 0 <= i < |Trim(val)| && IsAsciiDigit(Trim(val)[i])
    ensures CoerceLevel(Some(val), a) == CoerceLevel(Some(val), b)
  {
  }

  /** When the value holds no digit the sheet name is read as if it were the value. */
  lemma CoerceLevelFromSheet(val: Option<string>, sheetName: string)
    requires val.Some? ==> forall i :: 0 <= i < |val.value| ==> !IsAsciiDigit(val.value[i])
    ensures CoerceLevel(val, sheetName) == CoerceLevel(Some(sheetName), "")
  {
    var s := Trim(if val.Some? then val.value else "");
    NoDigitAfterTrim(if val.Some? then val.value else "");
    assert FirstDigitRun(s).None?;
    DigitRunOfTrim(sheetName);
  }

  /** Neither the value nor the sheet name holds a digit: level 1. */
  lemma CoerceLevelDefault(val: Option<string>, sheetName: string)
    requires val.Some? ==> forall i :: 0 <= i < |val.value| ==> !IsAsciiDigit(val.value[i])
    requires forall i :: 0 <= i < |sheetName| ==> !IsAsciiDigit(sheetName[i])
    ensures CoerceLevel(val, sheetName) == 1
  {
    NoDigitAfterTrim(if val.Some? then val.value else "");
  }

  /** A numeral too large for a double reads as `Infinity`, which is not finite: level 1, not 6. */
  lemma CoerceLevelHugeNumeral(digits: string, sheetName: string)
    requires digits != [] && AllDigits(digits) && DigitsValue(digits) >= InfinityThreshold
    ensures CoerceLevel(Some(digits), sheetName) == 1
  {
    TrimNoEdgeSpace(digits);
    assert LeadingDigits(digits) == digits by { AllDigitsLeading(digits); }
  }

  lemma {:induction false} AllDigitsLeading(s: string)
    requires AllDigits(s)
    ensures LeadingDigits(s) == s
  {
    if s != [] { AllDigitsLeading(s[1..]); }
  }

  lemma NoDigitAfterTrim(s: string)
    requires forall i :: 0 <= i < |s| ==> !IsAsciiDigit(s[i])
    ensures forall i :: 0 <= i < |Trim(s)| ==> !IsAsciiDigit(Trim(s)[i])
  {
    var a := TrimStart(s);
    var t := TrimEnd(a);
    var k := |s| - |a|;
    forall i | 0 <= i < |t|
      ensures !IsAsciiDigit(t[i])
    {
      assert t[i] == a[i];
      assert a[i] == s[k + i];
    }
  }

  /** Trimming removes only whitespace, never a digit, so the first digit run survives it. */
  lemma DigitRunOfTrim(s: string)
    ensures FirstDigitRun(Trim(s)) == FirstDigitRun(s)
  {
    var a := TrimStart(s);
    var k := |s| - |a|;
    TrailingSpaces(s, k, a, TrimEnd(a));
    RunAfterSpaces(s, k, TrimEnd(a));
  }

  /** The trimmed end of a suffix is a slice, followed by the suffix's trailing spaces. */
  lemma TrailingSpaces(s: string, k: nat, a: string, t: string)
    requires k <= |s| && a == s[k..] && |t| <= |a| && t == a[..|t|]
    requires forall i :: |t| <= i < |a| ==> IsSpace(a[i])
    ensures t == s[k..k + |t|]
    ensures forall i :: k + |t| <= i < |s| ==> IsSpace(s[i])
  {
    forall i | k + |t| <= i < |s|
      ensures IsSpace(s[i])
    {
      assert s[i] == a[i - k];
    }
  }

  lemma RunAfterSpaces(s: string, k: nat, t: string)
    requires k + |t| <= |s| && t == s[k..k + |t|]
    requires forall i :: 0 <= i < k ==> IsSpace(s[i])
    requires forall i :: k + |t| <= i < |s| ==> IsSpace(s[i])
    ensures FirstDigitRun(t) == FirstDigitRun(s)
  {
    var ds := DigitStart(s);
    var dt := DigitStart(t);
    if dt < |t| {
      assert IsAsciiDigit(s[k + dt]);
      assert ds == k + dt by {
        assert forall i :: 0 <= i < k + dt ==> !IsAsciiDigit(s[i]) by {
          forall i | 0 <= i < k + dt ensures !IsAsciiDigit(s[i]) {
            if i >= k { assert s[i] == t[i - k]; }
          }
        }
        DigitStartIs(s, k + dt);
      }
      LeadingDigitsStable(s[ds..], t[dt..]);
    } else {
      forall i | 0 <= i < |s| ensures !IsAsciiDigit(s[i]) {
        if k <= i < k + |t| { assert s[i] == t[i - k]; }
      }
    }
  }

  lemma {:induction false} DigitStartIs(s: string, j: nat)
    requires j < |s| && IsAsciiDigit(s[j])
    requires forall i :: 0 <= i < j ==> !IsAsciiDigit(s[i])
    ensures DigitStart(s) == j
  {
    if j > 0 { DigitStartIs(s[1..], j - 1); }
  }

  /** The digits leading `a` lead `b` too when `a` is a prefix of `b` followed only by spaces. */
  lemma {:induction false} LeadingDigitsStable(b: string, a: string)
    requires |a| <= |b| && b[..|a|] == a
    requires forall i :: |a| <= i < |b| ==> IsSpace(b[i])
    ensures LeadingDigits(a) == LeadingDigits(b)
  {
    if a != [] {
      assert a[0] == b[0];
      LeadingDigitsStable(b[1..], a[1..]);
    } else if b != [] {
      assert IsSpace(b[0]);
    }
  }

  // ---------------------------------------------------------------------------
  // loadHSKWorkbook

  /** A row of `sheet_to_json(ws, { defval: '' })`: header to the `toString()` of the cell.
      With the empty default every header column is present; a header missing from the
      sheet is absent from the map (`undefined`). */
  type Row = map<string, string>

  /** A sheet name and its rows; `None` when `wb.Sheets[name]` is missing. */
  datatype Sheet = Sheet(name: string, rows: Option<seq<Row>>)

  datatype HskItem = HskItem(level: int, hanzi: string, pinyin: string, english: string)

  const HanziKeys: seq<string> := ["hanzi", "Hanzi", "word", "汉字"]
  const PinyinKeys: seq<string> := ["pinyin", "Pinyin", "拼音"]
  const EnglishKeys: seq<string> := ["english", "English", "meaning", "释义"]
  const LevelKeys: seq<string> := ["level", "Level", "HSK", "HSK Level", "级别"]

  /** `row[k1] ?? row[k2] ?? …`: the first key the row has, even when its cell is empty. */
  function FirstPresent(row: Row, keys: seq<string>): (r: Option<string>)
    ensures r.None? <==> forall i :: 0 <= i < |keys| ==> keys[i] !in row
    ensures r.Some? ==> r.value in row.Values
  {
    if keys == [] then None
    else if keys[0] in row then Some(row[keys[0]])
    else FirstPresent(row, keys[1..])
  }

  /** The first key present decides the chain, even when its cell is the empty string. */
  lemma {:induction false} FirstPresentIsFirst(row: Row, keys: seq<string>, i: nat)
    requires i < |keys| && keys[i] in row
    requires forall j :: 0 <= j < i ==> keys[j] !in row
    ensures FirstPresent(row, keys) == Some(row[keys[i]])
  {
    if i > 0 { FirstPresentIsFirst(row, keys[1..], i - 1); }
  }

  /** `(chain ?? '').toString().trim()`. */
  function Cell(row: Row, keys: seq<string>): (r: string)
    ensures Trimmed(r)
  {
    Trim(if FirstPresent(row, keys).Some? then FirstPresent(row, keys).value else "")
  }

  /** What one row contributes: nothing when its hanzi is empty. */
  function RowItem(row: Row, sheetName: string): (r: Option<HskItem>)
    ensures r.None? <==> |Cell(row, HanziKeys)| == 0
    ensures r.Some? ==> WellFormed(r.value)
  {
    var hanzi := Cell(row, HanziKeys);
    if hanzi == "" then None
    else Some(HskItem(CoerceLevel(FirstPresent(row, LevelKeys), sheetName), hanzi,
      Cell(row, PinyinKeys), Cell(row, EnglishKeys)))
  }

  /** `RowItem` for the rows of one sheet. */
  function RowFn(sheetName: string): Row -> Option<HskItem> {
    row => RowItem(row, sheetName)
  }

  /** The items of the rows of a sheet, in row order. */
  function RowsItems(rows: seq<Row>, sheetName: string): seq<HskItem> {
    FilterMap(rows, RowFn(sheetName))
  }

  function SheetItems(sh: Sheet): seq<HskItem> {
    if sh.rows.None? then [] else RowsItems(sh.rows.value, sh.name)
  }

  function SheetsItems(sheets: seq<Sheet>): seq<HskItem> {
    if sheets == [] then [] else SheetsItems(sheets[..|sheets| - 1]) + SheetItems(sheets[|sheets| - 1])
  }

  /** `loadHSKWorkbook`: `None` is a workbook that is missing or cannot be read, for which
      the catch returns no items. */
  function WorkbookItems(wb: Option<seq<Sheet>>): seq<HskItem> {
    if wb.None? then [] else SheetsItems(wb.value)
  }

  /** `loadHSKWorkbook`: the loop over sheet names and then rows, pushing one item per row whose
      hanzi is not empty. */
  method LoadHskWorkbook(wb: Option<seq<Sheet>>) returns (out: seq<HskItem>)
    ensures out == WorkbookItems(wb)
    ensures forall x :: x in out ==> WellFormed(x)
  {
    out := [];
    if wb.None? {
      return;
    }
    var sheets := wb.value;
    var i := 0;
    while i < |sheets|
      invariant 0 <= i <= |sheets|
      invariant out == SheetsItems(sheets[..i])
    {
      SheetsItemsSnoc(sheets, i);
      if sheets[i].rows.Some? {
        var items := LoadSheetRows(sheets[i].rows.value, sheets[i].name);
        out := out + items;
      }
      i := i + 1;
    }
    assert sheets[..i] == sheets;
    WorkbookWellFormed(wb);
  }

  /** The inner loop of `loadHSKWorkbook` over the rows of one sheet. */
  method LoadSheetRows(rows: seq<Row>, sheetName: string) returns (items: seq<HskItem>)
    ensures items == RowsItems(rows, sheetName)
  {
    items := [];
    var j := 0;
    while j < |rows|
      invariant 0 <= j <= |rows|
      invariant items == RowsItems(rows[..j], sheetName)
    {
      FilterMapSnoc(rows, j, RowFn(sheetName));
      var item := RowItem(rows[j], sheetName);
      if item.Some? {
        items := items + [item.value];
      }
      j := j + 1;
    }
    assert rows[..j] == rows;
  }

  lemma SheetsItemsSnoc(sheets: seq<Sheet>, i: nat)
    requires i < |sheets|
    ensures SheetsItems(sheets[..i + 1]) == SheetsItems(sheets[..i]) + SheetItems(sheets[i])
  {
    assert sheets[..i + 1][..i] == sheets[..i];
  }

  /** An item as the workbook loader emits it: a level in 1..6, a non-empty hanzi, every field trimmed. */
  predicate WellFormed(x: HskItem) {
    1 <= x.level <= 6 && x.hanzi != [] && Trimmed(x.hanzi) && Trimmed(x.pinyin) && Trimmed(x.english)
  }

  lemma RowsWellFormed(rows: seq<Row>, sheetName: string)
    ensures forall x :: x in RowsItems(rows, sheetName) ==> WellFormed(x)
  {
    forall x | x in RowsItems(rows, sheetName)
      ensures WellFormed(x)
    {
      FilterMapFrom(rows, RowFn(sheetName), x);
    }
  }

  lemma {:induction false} SheetsWellFormed(sheets: seq<Sheet>)
    ensures forall x :: x in SheetsItems(sheets) ==> WellFormed(x)
  {
    if sheets != [] {
      SheetsWellFormed(sheets[..|sheets| - 1]);
      var sh := sheets[|sheets| - 1];
      if sh.rows.Some? { RowsWellFormed(sh.rows.value, sh.name); }
    }
  }

  /** Every item the loader emits is well formed. */
  lemma WorkbookWellFormed(wb: Option<seq<Sheet>>)
    ensures forall x :: x in WorkbookItems(wb) ==> WellFormed(x)
  {
    if wb.Some? { SheetsWellFormed(wb.value); }
  }

  /** Every emitted item is the item of some row of the sheet. */
  lemma RowsItemsFromRows(rows: seq<Row>, sheetName: string, x: HskItem)
    requires x in RowsItems(rows, sheetName)
    ensures exists i :: 0 <= i < |rows| && RowItem(rows[i], sheetName) == Some(x)
  {
    FilterMapFrom(rows, RowFn(sheetName), x);
  }

  /** The item of every row with a non-empty hanzi is emitted. */
  lemma RowsItemsCoverRows(rows: seq<Row>, sheetName: string, i: nat)
    requires i < |rows| && |Cell(rows[i], HanziKeys)| != 0
    ensures RowItem(rows[i], sheetName).Some? && RowItem(rows[i], sheetName).value in RowsItems(rows, sheetName)
  {
    FilterMapCovers(rows, RowFn(sheetName), i);
  }

  // ---------------------------------------------------------------------------
  // GET /api/hsk

  /** `new Set(q.split(',').map(s => coerceLevel(s, '')).filter(Number.isFinite))`. */
  function WantedLevels(q: string): (r: set<int>)
    ensures forall l :: l in r ==> 1 <= l <= 6
    ensures forall part :: part in SplitOn(q, ',') ==> CoerceLevel(Some(part), "") in r
    ensures forall l :: l in r ==> exists part :: part in SplitOn(q, ',') && CoerceLevel(Some(part), "") == l
  {
    set part | part in SplitOn(q, ',') :: CoerceLevel(Some(part), "")
  }

  /** `items.filter(x => want.has(Number(x.level)))`. */
  function FilterLevels(items: seq<HskItem>, want: set<int>): (r: seq<HskItem>)
    ensures |r| <= |items|
    ensures forall x :: x in r <==> x in items && x.level in want
  {
    if items == [] then []
    else (if items[0].level in want then [items[0]] else []) + FilterLevels(items[1..], want)
  }

  datatype HskResponse = HskResponse(count: nat, items: seq<HskItem>)

  /** `GET /api/hsk?levels=…`: `levels` is the query value (`None` when absent). */
  function HskQuery(cache: seq<HskItem>, levels: Option<Json>): (r: HskResponse)
    ensures r.count == |r.items|
    ensures Trim(TextOr(levels, "")) == "" ==> r.items == cache
    ensures Trim(TextOr(levels, "")) != "" ==> forall x :: x in r.items <==>
      x in cache && x.level in WantedLevels(Trim(TextOr(levels, "")))
  {
    var q := Trim(TextOr(levels, ""));
    var items := if q != "" then FilterLevels(cache, WantedLevels(q)) else cache;
    HskResponse(|items|, items)
  }

  /** `?levels=n` for one level returns the cached items of exactly that level. */
  lemma QueryOneLevel(cache: seq<HskItem>, n: nat)
    requires 1 <= n <= 6
    ensures forall x :: x in HskQuery(cache, Some(Str(NatToString(n)))).items <==> x in cache && x.level == n
  {
    var s := NatToString(n);
    assert s == [('0' as int + n) as char];
    assert TextOr(Some(Str(s)), "") == s;
    TrimNoEdgeSpace(s);
    WantedSingle(s);
    CoerceLevelOfNumeral(n, "");
  }

  lemma WantedSingle(q: string)
    requires ',' !in q
    ensures WantedLevels(q) == {CoerceLevel(Some(q), "")}
  {
    assert SplitOn(q, ',') == [q];
  }

  /** An empty piece between commas reads as level 1: `?levels=3,` also returns level 1. */
  lemma EmptyPieceIsLevelOne()
    ensures CoerceLevel(Some(""), "") == 1
  {
  }

  // ---------------------------------------------------------------------------
  // POST /api/realtime-session

  const MiniModel: string := "gpt-realtime-mini"
  const PreviewModel: string := "gpt-4o-mini-realtime-preview"
  const CriticalSuffix: string := "\n\nCritical: Unless the learner explicitly asks, respond ONLY in Simplified Chinese plus pinyin support."

  /** The request body's members `model`, `useMini`, `voice` and `allowEnglish` (`None` when absent). */
  datatype SessionRequest = SessionRequest(model: Option<Json>, useMini: Option<Json>,
    voice: Option<Json>, allowEnglish: Option<Json>)

  datatype SessionPayload = SessionPayload(model: string, voice: Option<string>, instructions: string)

  /** The handler's outcome before the upstream call: the payload it posts, or the
      400 it answers when no API key is configured. */
  datatype SessionOutcome = Post(payload: SessionPayload) | MissingKey

  /** `allowEnglish === true || allowEnglish === '1'`. */
  predicate SpeaksEnglishToo(allowEnglish: Option<Json>) {
    allowEnglish == Some(Bool(true)) || allowEnglish == Some(Str("1"))
  }

  /** The persona the session speaks with: the default one, or the default one with `english: 'never'`. */
  function SessionPersona(allowEnglish: Option<Json>): (s: P.Settings)
    ensures !SpeaksEnglishToo(allowEnglish) ==> P.Merge(s).english == "never"
    ensures SpeaksEnglishToo(allowEnglish) ==> P.Merge(s) == P.DefaultPersona
  {
    if SpeaksEnglishToo(allowEnglish) then P.AsSettings(P.DefaultPersona)
    else P.WithEnglish(P.DefaultPersona, "never")
  }

  /** The session instructions: the tutor prompt for the session's persona, then the
      instruction to answer only in Chinese with pinyin.  Unless English was allowed, the
      prompt carries the rules that forbid English. */
  function SessionInstructions(allowEnglish: Option<Json>): (r: string)
    ensures StartsWith(r, P.BuildSystemPrompt(SessionPersona(allowEnglish), []) + "\n\n")
    ensures EndsWith(r, CriticalSuffix)
    ensures !SpeaksEnglishToo(allowEnglish) ==>
      Contains(r, Join([P.RulesLine] + P.NeverSpec + [P.PaceLine(P.Merge(SessionPersona(allowEnglish)))], "\n"))
  {
    var persona := SessionPersona(allowEnglish);
    var tutor := P.BuildTutorPrompt(persona, [], "");
    InstructionsShape(persona, tutor, CriticalSuffix, allowEnglish);
    tutor + CriticalSuffix
  }

  /** `useMini || rawModel === 'gpt-realtime-mini'`. */
  predicate UsesMini(req: SessionRequest) {
    (req.useMini.Some? && Truthy(req.useMini.value)) || Trim(TextOr(req.model, "")) == MiniModel
  }

  /** The model and voice the session payload carries. */
  predicate ModelAndVoice(req: SessionRequest, p: SessionPayload) {
    ChosenFields(Trim(TextOr(req.model, "")), UsesMini(req), Trim(TextOr(req.voice, "")), p)
  }

  /** A model given in the request is used as it is; otherwise the mini model when asked
      for, else the preview model.  A voice is sent, trimmed, when one is given and the
      mini model is not in use. */
  predicate ChosenFields(raw: string, useMini: bool, voice: string, p: SessionPayload) {
    && (raw != "" ==> p.model == raw)
    && (raw == "" && useMini ==> p.model == MiniModel)
    && (raw == "" && !useMini ==> p.model == PreviewModel)
    && (p.voice.Some? <==> !useMini && voice != "")
    && (p.voice.Some? ==> p.voice.value == voice)
  }

  /** `POST /api/realtime-session` up to the payload object it builds field by field. */
  method RealtimeSession(req: SessionRequest, hasApiKey: bool) returns (r: SessionOutcome)
    ensures !hasApiKey <==> r.MissingKey?
    ensures r.Post? ==> ModelAndVoice(req, r.payload)
    ensures r.Post? ==> r.payload.instructions == SessionInstructions(req.allowEnglish)
  {
    if !hasApiKey {
      return MissingKey;
    }
    var payload := SessionFields(req);
    payload := payload.(instructions := SessionInstructions(req.allowEnglish));
    return Post(payload);
  }

  /** The model and the voice, set before the instructions; the voice member is added
      only when it is sent. */
  method SessionFields(req: SessionRequest) returns (payload: SessionPayload)
    ensures ModelAndVoice(req, payload)
  {
    var rawModel := Trim(TextOr(req.model, ""));
    var useMini := UsesMini(req);
    var model := if rawModel != "" then rawModel else if useMini then MiniModel else PreviewModel;
    var voice := Trim(TextOr(req.voice, ""));
    payload := SessionPayload(model, if !useMini && voice != "" then Some(voice) else None, "");
  }

  lemma InstructionsShape(s: P.Settings, tutor: string, suffix: string, allowEnglish: Option<Json>)
    requires tutor == P.BuildTutorPrompt(s, [], "")
    requires s == SessionPersona(allowEnglish)
    ensures StartsWith(tutor + suffix, P.BuildSystemPrompt(s, []) + "\n\n")
    ensures EndsWith(tutor + suffix, suffix)
    ensures !SpeaksEnglishToo(allowEnglish) ==>
      Contains(tutor + suffix, Join([P.RulesLine] + P.NeverSpec + [P.PaceLine(P.Merge(s))], "\n"))
  {
    hide *;
    P.TutorPromptExtendsSystemPrompt(s, [], "");
    StartsWithAppend(tutor, suffix);
    StartsWithTrans(tutor + suffix, tutor, P.BuildSystemPrompt(s, []) + "\n\n");
    EndsWithAppend(tutor, suffix);
    if !SpeaksEnglishToo(allowEnglish) {
      InstructionsRules(s, tutor, suffix);
    }
  }

  /** A persona that never speaks English carries the rules that forbid it. */
  lemma InstructionsRules(s: P.Settings, tutor: string, suffix: string)
    requires tutor == P.BuildTutorPrompt(s, [], "") && P.Merge(s).english == "never"
    ensures Contains(tutor + suffix, Join([P.RulesLine] + P.NeverSpec + [P.PaceLine(P.Merge(s))], "\n"))
  {
    hide *;
    var sys := P.BuildSystemPrompt(s, []);
    P.TutorPromptExtendsSystemPrompt(s, [], "");
    P.SystemPromptSpecBlock(s, []);
    P.LinesSpecChoice("never");
    StartsWithAppend(tutor, suffix);
    StartsWithTrans(tutor + suffix, tutor, sys + "\n\n");
    StartsWithAppend(sys, "\n\n");
    StartsWithTrans(tutor + suffix, sys + "\n\n", sys);
    ContainsInPrefix(tutor + suffix, sys, Join([P.RulesLine] + P.NeverSpec + [P.PaceLine(P.Merge(s))], "\n"));
  }

  // ---------------------------------------------------------------------------
  // POST /api/tts

  /** `new Set(['nova', 'shimmer', 'echo', 'onyx', 'fable', 'alloy', 'ash', 'sage', 'coral'])`. */
  const AllowedVoices: set<string> := {"nova", "shimmer", "echo", "onyx", "fable", "alloy", "ash", "sage", "coral"}

  datatype TtsOutcome = Speak(text: string, voice: string) | MissingText

  /** `POST /api/tts` up to the speech request: the text, and the whitelisted voice. */
  function TtsRequest(text: Option<Json>, voice: Option<Json>): (r: TtsOutcome)
    ensures r.MissingText? <==> TextOr(text, "") == ""
    ensures r.Speak? ==> r.text == TextOr(text, "") && r.voice in AllowedVoices
    ensures r.Speak? ==> (r.voice == Lower(TextOr(voice, "alloy")) <==> Lower(TextOr(voice, "alloy")) in AllowedVoices)
    ensures r.Speak? && Lower(TextOr(voice, "alloy")) !in AllowedVoices ==> r.voice == "alloy"
  {
    var t := TextOr(text, "");
    var v := Lower(TextOr(voice, "alloy"));
    if t == "" then MissingText
    else Speak(t, if v in AllowedVoices then v else "alloy")
  }

  /** An absent voice is `alloy`. */
  lemma TtsDefaultVoice(text: string)
    requires text != ""
    ensures TtsRequest(Some(Str(text)), None) == Speak(text, "alloy")
  {
    assert Lower("alloy") == "alloy";
  }

  /** A whitelisted voice is used whatever its letter case. */
  lemma TtsVoiceAnyCase(text: string)
    requires text != ""
    ensures TtsRequest(Some(Str(text)), Some(Str("Nova"))) == Speak(text, "nova")
  {
    assert Lower("Nova") == "nova";
  }

  /** Any voice whose lower-cased name is outside the whitelist falls back to `alloy`. */
  lemma TtsUnknownVoice(text: string, v: string)
    requires text != "" && Lower(v) !in AllowedVoices
    ensures TtsRequest(Some(Str(text)), Some(Str(v))) == Speak(text, "alloy")
  {
  }

  /** For example `robot`, which no voice of the whitelist is. */
  lemma TtsRobotVoice(text: string)
    requires text != ""
    ensures TtsRequest(Some(Str(text)), Some(Str("robot"))) == Speak(text, "alloy")
  {
    assert Lower("robot") == "robot";
    TtsUnknownVoice(text, "robot");
  }

  // ---------------------------------------------------------------------------
  // POST /api/chat/stream: the event-stream writer

  function DeltaEvent(delta: string): Json { Obj([("delta", Str(delta))]) }
  const DoneEvent: Json := Obj([("done", Bool(true))])
  function ErrorEvent(message: string): Json { Obj([("error", Str(message))]) }

  /** `data: ${JSON.stringify(event)}\n\n`. */
  function Frame(event: Json): string {
    "data: " + Stringify(event) + "\n\n"
  }

  /** The non-empty deltas of the streamed parts, in order; a part's content is
      `part?.choices?.[0]?.delta?.content || ''`, `None` when absent. */
  function Deltas(contents: seq<Option<string>>): (r: seq<string>)
    ensures |r| <= |contents|
  {
    FilterMap(contents, DeltaOf)
  }

  /** `const delta = content || ''; if (delta) …`: the delta a part carries, if any. */
  function DeltaOf(content: Option<string>): (r: Option<string>)
    ensures r.Some? ==> r.value != []
  {
    if content.Some? && content.value != [] then content else None
  }

  /** The frames of a sequence of deltas, in order. */
  function FramesOf(deltas: seq<string>): string {
    if deltas == [] then "" else FramesOf(deltas[..|deltas| - 1]) + Frame(DeltaEvent(deltas[|deltas| - 1]))
  }

  /** The frame that ends the stream: done, or the error when the upstream stream fails. */
  function EndFrame(failure: Option<string>): string {
    Frame(if failure.Some? then ErrorEvent(failure.value) else DoneEvent)
  }

  /** The `for await` loop of `/api/chat/stream`: one frame per non-empty delta, in order,
      then the done frame, or the error frame when the stream fails with `failure` after
      these parts. */
  method WriteStream(contents: seq<Option<string>>, failure: Option<string>) returns (written: string)
    ensures written == FramesOf(Deltas(contents)) + EndFrame(failure)
  {
    written := "";
    var i := 0;
    while i < |contents|
      invariant 0 <= i <= |contents|
      invariant written == FramesOf(Deltas(contents[..i]))
    {
      FilterMapSnoc(contents, i, DeltaOf);
      var delta := if contents[i].Some? then contents[i].value else "";
      if delta != "" {
        assert DeltaOf(contents[i]) == Some(delta);
        assert Deltas(contents[..i + 1]) == Deltas(contents[..i]) + [delta];
        FramesOfSnoc(Deltas(contents[..i]), delta);
        written := written + Frame(DeltaEvent(delta));
      } else {
        assert DeltaOf(contents[i]) == None;
        assert Deltas(contents[..i + 1]) == Deltas(contents[..i]);
      }
      i := i + 1;
    }
    assert contents[..i] == contents;
    written := written + EndFrame(failure);
  }

  lemma FramesOfSnoc(ds: seq<string>, d: string)
    ensures FramesOf(ds + [d]) == FramesOf(ds) + Frame(DeltaEvent(d))
  {
    assert (ds + [d])[..|ds|] == ds;
  }

  /** A frame body is one line: `data: ` and the event's JSON, which has no raw line break. */
  lemma FrameBody(event: Json, key: string, v: Json)
    requires event == Obj([(key, v)]) && (v.Str? || v.Bool?)
    ensures Frame(event) == ("data: " + Stringify(event)) + "\n\n"
    ensures '\n' !in "data: " + Stringify(event)
    ensures Stringify(event)[0] == '{' && Stringify(event)[|Stringify(event)| - 1] == '}'
  {
    SingleMemberLine(key, v);
  }
}

/** The per-response state of the realtime panel (src/components/RealtimePanel.jsx):
    the stored transcript, the last emitted normalised text and the pending debounce
    timer of each response id, the transcript list shown in the user interface and the
    transcript events dispatched to the rest of the application.  A realtime payload
    is a `Json` value; a timer is the membership of its id in `pending`, and its firing
    is a separate step. */
module RealtimePanel {
  import opened Wrappers
  import opened Text
  import opened Json
  import opened RealtimeText

  /** The transformations this model leaves abstract: `sanitizeCandidate` (469-540),
      `collapseRepetition` (334-390), `extractTransliteration` (224-290, giving
      `main` and `translit`), the `pcm16inf` noise filter of `normalizeForCompare`
      (208) and `hanziToPinyin`. */
  datatype Env = Env(
    sanitize: string -> string,
    collapse: string -> string,
    transliterate: string -> (string, string),
    denoise: string -> string,
    pinyin: string -> string)

  /** `sanitizeCandidate` returns "" for an empty input (470). */
  function Sanitize(env: Env, s: string): string {
    if s == [] then [] else env.sanitize(s)
  }

  /** `collapseRepetition` returns an empty input unchanged (335). */
  function Collapse(env: Env, s: string): string {
    if s == [] then [] else env.collapse(s)
  }

  /** `extractTransliteration` gives two empty parts for an empty input (225). */
  function Transliterate(env: Env, s: string): (string, string) {
    if s == [] then ([], []) else env.transliterate(s)
  }

  /** `hasHanCharacters(t) ? hanziToPinyin(t) : ""`. */
  function Fallback(env: Env, t: string): string {
    if HasHan(t) then env.pinyin(t) else []
  }

  /** `(main || text || "").trim()`: the Chinese part of a text, or the whole text. */
  function Display(env: Env, text: string): (r: string)
    ensures Trimmed(r)
  {
    Trim(Or(Transliterate(env, text).0, text))
  }

  /** `(translit || fallbackTranslit || "").trim()`. */
  function TranslitOf(env: Env, text: string, display: string): string {
    Trim(Or(Transliterate(env, text).1, Fallback(env, display)))
  }

  // ---------------------------------------------------------------------------
  // normalizeForCompare (204-221)

  /** The class `[，,。\.、？！\?！:;，。·\- -⁯]`. */
  predicate IsCompareNoise(c: char) {
    c == '，' || c == ',' || c == '。' || c == '.' || c == '、' || c == '？' || c == '！' ||
    c == '?' || c == ':' || c == ';' || c == '·' || c == '-' || '\U{2000}' <= c <= '\U{206F}'
  }

  /** `t.replace(/[…]+/g, "")` with the class above. */
  function RemoveNoise(s: string): (r: string)
    ensures forall i :: 0 <= i < |r| ==> !IsCompareNoise(r[i]) && r[i] in s
    ensures forall c :: c in s && !IsCompareNoise(c) ==> c in r
  {
    if s == [] then [] else (if IsCompareNoise(s[0]) then [] else [s[0]]) + RemoveNoise(s[1..])
  }

  /** A text without noise is kept whole. */
  lemma {:induction false} RemoveNoiseFixed(s: string)
    requires forall i :: 0 <= i < |s| ==> !IsCompareNoise(s[i])
    ensures RemoveNoise(s) == s
  {
    if s != [] { RemoveNoiseFixed(s[1..]); }
  }

  /** `normalizeForCompare(s)`: trim, drop the encoder noise and the garbled tone
      runs, then compare on what `Squash` leaves. */
  function Normalize(env: Env, s: string): (r: string)
    ensures forall i :: 0 <= i < |r| ==> !IsSpace(r[i]) && !IsCompareNoise(r[i]) && !IsAsciiUpper(r[i])
    ensures s != [] ==> forall c :: c in StripToneGarble(env.denoise(Trim(s))) && !IsSpace(c) && !IsCompareNoise(c) ==>
      LowerChar(c) in r
  {
    if s == [] then [] else Squash(StripToneGarble(env.denoise(Trim(s))))
  }

  /** Lines 213-219: punctuation and whitespace dropped, then lower-cased; nothing
      left is whitespace, punctuation of the class or an upper-case ASCII letter. */
  function Squash(u: string): (r: string)
    ensures forall i :: 0 <= i < |r| ==> !IsSpace(r[i]) && !IsCompareNoise(r[i]) && !IsAsciiUpper(r[i])
    ensures forall c :: c in u && !IsSpace(c) && !IsCompareNoise(c) ==> LowerChar(c) in r
  {
    var v := RemoveNoise(u);
    var t := RemoveSpaces(v);
    NoNoiseAfterSpaces(v);
    LowerKeepsClean(t);
    LowerKeeps(t);
    Lower(t)
  }

  /** Every character of `t` is there, lower-cased, in `Lower(t)`. */
  lemma LowerKeeps(t: string)
    ensures forall c :: c in t ==> LowerChar(c) in Lower(t)
  {
    forall c | c in t ensures LowerChar(c) in Lower(t) {
      var i :| 0 <= i < |t| && t[i] == c;
      assert Lower(t)[i] == LowerChar(c);
    }
  }

  /** Comparing on the squashed form is stable: squashing twice is squashing once. */
  lemma SquashIdempotent(u: string)
    ensures Squash(Squash(u)) == Squash(u)
  {
    var r := Squash(u);
    var t := RemoveSpaces(RemoveNoise(u));
    assert r == Lower(t);
    RemoveNoiseFixed(r);
    RemoveSpacesFixed(r);
    LowerIdempotent(t);
  }

  /** Removing white space brings no noise back. */
  lemma NoNoiseAfterSpaces(v: string)
    requires forall i :: 0 <= i < |v| ==> !IsCompareNoise(v[i])
    ensures forall i :: 0 <= i < |RemoveSpaces(v)| ==>
      !IsSpace(RemoveSpaces(v)[i]) && !IsCompareNoise(RemoveSpaces(v)[i])
  {
    var t := RemoveSpaces(v);
    forall i | 0 <= i < |t| ensures !IsCompareNoise(t[i]) {
      var j :| 0 <= j < |v| && v[j] == t[i];
    }
  }

  /** Lower-casing a string with no white space or noise leaves none and no upper case. */
  lemma LowerKeepsClean(t: string)
    requires forall i :: 0 <= i < |t| ==> !IsSpace(t[i]) && !IsCompareNoise(t[i])
    ensures forall i :: 0 <= i < |Lower(t)| ==>
      !IsSpace(Lower(t)[i]) && !IsCompareNoise(Lower(t)[i]) && !IsAsciiUpper(Lower(t)[i])
  {
    forall i | 0 <= i < |t|
      ensures !IsSpace(LowerChar(t[i])) && !IsCompareNoise(LowerChar(t[i])) && !IsAsciiUpper(LowerChar(t[i]))
    {
      LowerCharClean(t[i]);
    }
  }

  lemma LowerCharClean(c: char)
    requires !IsSpace(c) && !IsCompareNoise(c)
    ensures !IsSpace(LowerChar(c)) && !IsCompareNoise(LowerChar(c)) && !IsAsciiUpper(LowerChar(c))
  {
  }

  // ---------------------------------------------------------------------------
  // Response id and gathered texts (426-467)

  /** The `??` chain of lines 428-435, in order. */
  function IdCandidates(p: Json): (r: seq<Option<Json>>)
    ensures |r| == 7
  {
    var P := Some(p);
    [Path(P, ["response", "id"]), Field(P, "response_id"), Field(P, "item_id"),
     Path(P, ["event", "item_id"]), Path(P, ["delta", "item_id"]), Field(P, "id"),
     Path(P, ["item", "id"])]
  }

  /** The response id, or `None` when the payload is ignored (`if (!responseId) return`). */
  function ResponseId(p: Json): (r: Option<Json>)
    ensures r.Some? ==> Truthy(r.value)
  {
    var c := Coalesce(IdCandidates(p));
    if c.Some? && Truthy(c.value) then c else None
  }

  /** The first candidate that is neither absent nor `null` decides the id, and a falsy
      one (0, "", false) makes the payload ignored even when a later candidate is usable. */
  lemma ResponseIdFirst(p: Json, i: nat)
    requires i < 7
    requires IdCandidates(p)[i].Some? && IdCandidates(p)[i].value != Null
    requires forall k :: 0 <= k < i ==> IdCandidates(p)[k].None? || IdCandidates(p)[k] == Some(Null)
    ensures Truthy(IdCandidates(p)[i].value) ==> ResponseId(p) == IdCandidates(p)[i]
    ensures !Truthy(IdCandidates(p)[i].value) ==> ResponseId(p).None?
  {
    CoalesceFirst(IdCandidates(p), i);
  }

  /** `type === t`. */
  predicate TypeIs(p: Json, t: string) {
    Field(Some(p), "type") == Some(Str(t))
  }

  predicate IsDone(p: Json) {
    TypeIs(p, "response.completed") || TypeIs(p, "response.final") ||
    TypeIs(p, "response.output_text.done")
  }

  predicate IsError(p: Json) {
    TypeIs(p, "response.error") || TypeIs(p, "response.refusal")
  }

  /** The sources of the eight unconditional `gather` calls (446-453), in order. */
  function PrimarySources(p: Json): seq<Option<Json>> {
    var P := Some(p);
    [Field(P, "delta"), Path(P, ["response", "delta"]), Path(P, ["delta", "content"]),
     Path(P, ["delta", "text"]), Path(P, ["delta", "output_text"]),
     Path(P, ["delta", "output_text_delta"]), Field(P, "output_text"),
     Field(P, "output_text_delta")]
  }

  /** `gather(...sources)`: each source extracted in turn into the same bucket. */
  function GatherAll(sources: seq<Option<Json>>): seq<string> {
    if sources == [] then [] else ExtractTexts(sources[0]) + GatherAll(sources[1..])
  }

  lemma {:induction false} GatherAllPushable(sources: seq<Option<Json>>)
    ensures Pushable(GatherAll(sources))
  {
    if sources != [] {
      GatherAllPushable(sources[1..]);
      ExtractPushable(sources[0]);
      PushableAppend(ExtractTexts(sources[0]), GatherAll(sources[1..]));
    }
  }

  function Primary(p: Json): seq<string> {
    GatherAll(PrimarySources(p))
  }

  /** `texts` after lines 446-467: the fallbacks `item`, `response` (skipped for the
      done event of a response already stored), `response.output_text` and `content`
      are each consulted only while nothing has been found. */
  function Gathered(p: Json, hadExisting: bool, done: bool): seq<string> {
    var P := Some(p);
    var t0 := Primary(p);
    var t1 := if t0 == [] then ExtractTexts(Field(P, "item")) else t0;
    var t2 := if t1 == [] && (!hadExisting || !done) then ExtractTexts(Field(P, "response")) else t1;
    var t3 := if t2 == [] then ExtractTexts(Path(P, ["response", "output_text"])) else t2;
    if t3 == [] then ExtractTexts(Field(P, "content")) else t3
  }

  /** Everything gathered is a non-empty trimmed string, and when the eight primary
      sources give text no fallback is consulted. */
  lemma GatheredTexts(p: Json, hadExisting: bool, done: bool)
    ensures Pushable(Gathered(p, hadExisting, done))
    ensures Primary(p) != [] ==> Gathered(p, hadExisting, done) == Primary(p)
  {
    var P := Some(p);
    GatherAllPushable(PrimarySources(p));
    ExtractPushable(Field(P, "item"));
    ExtractPushable(Field(P, "response"));
    ExtractPushable(Path(P, ["response", "output_text"]));
    ExtractPushable(Field(P, "content"));
  }

  /** Lines 544-548: the sanitised joined texts, reduced to their Chinese part. */
  function Candidate(env: Env, texts: seq<string>): (r: string)
    ensures Trimmed(r)
  {
    var cand := Sanitize(env, Join(texts, ""));
    if cand == [] then [] else Display(env, cand)
  }

  /** Lines 550-571: the inline merge with the stored text, collapsed, reduced to its
      Chinese part. */
  function Canonical(env: Env, prev: string, cand: string): (r: string)
    ensures Trimmed(r)
  {
    Display(env, Collapse(env, Joined(prev, cand)))
  }

  /** `/^[A-Za-z0-9\-\s'.,!?]{1,8}$/`. */
  predicate TinyAscii(s: string) {
    1 <= |s| <= 8 && forall i :: 0 <= i < |s| ==> IsTinyChar(s[i])
  }

  predicate IsTinyChar(c: char) {
    IsAsciiLetter(c) || IsAsciiDigit(c) || IsSpace(c) ||
    c == '-' || c == '\'' || c == '.' || c == ',' || c == '!' || c == '?'
  }

  // ---------------------------------------------------------------------------
  // The text operations of the state updates

  /** The text operations the state updates apply, named so that the updates can be
      reasoned about apart from how each text is computed. */
  datatype Ops = Ops(
    candidate: seq<string> -> string,
    canonical: (string, string) -> string,
    collapse: string -> string,
    display: string -> string,
    translit: (string, string) -> string,
    normalize: string -> string)

  /** The panel's own operations. */
  function OpsOf(env: Env): Ops {
    Ops(texts => Candidate(env, texts), (prev, cand) => Canonical(env, prev, cand),
        t => Collapse(env, t), t => Display(env, t), (t, d) => TranslitOf(env, t, d),
        t => Normalize(env, t))
  }

  /** What the updates rely on: display and canonical texts come out trimmed. */
  ghost predicate Sound(ops: Ops) {
    (forall t :: Trimmed(ops.display(t))) &&
    (forall prev, cand :: Trimmed(ops.canonical(prev, cand)))
  }

  lemma OpsOfSound(env: Env)
    ensures Sound(OpsOf(env))
  {
    var ops := OpsOf(env);
    forall t ensures Trimmed(ops.display(t)) {
      assert ops.display(t) == Display(env, t);
    }
    forall prev, cand ensures Trimmed(ops.canonical(prev, cand)) {
      assert ops.canonical(prev, cand) == Canonical(env, prev, cand);
    }
  }

  // ---------------------------------------------------------------------------
  // Panel state

  /** The detail of one `hb-realtime-transcript` event. */
  datatype Dispatch = Dispatch(id: Json, text: string, final: bool)

  /** `transcriptsRef`, `emittedRef`, the keys of `emitTimersRef`, `liveTranscripts` and
      the events dispatched so far. */
  datatype PanelState = PanelState(
    stored: map<Json, string>,
    emitted: map<Json, string>,
    pending: set<Json>,
    live: seq<Entry>,
    sent: seq<Dispatch>)

  /** `m.get(id) || ""`. */
  function Get(m: map<Json, string>, id: Json): string {
    if id in m then m[id] else []
  }

  /** `dispatchTranscript(id, text, final)` (59-78): the trimmed text, or nothing
      when it is empty. */
  function Send(sent: seq<Dispatch>, id: Json, text: string, final: bool): seq<Dispatch> {
    var cleaned := Trim(text);
    if cleaned == [] then sent else sent + [Dispatch(id, cleaned, final)]
  }

  /** A trimmed non-empty text is dispatched as it is; an empty one is not. */
  lemma SendTrimmed(sent: seq<Dispatch>, id: Json, text: string, final: bool)
    requires Trimmed(text)
    ensures text != [] ==> Send(sent, id, text, final) == sent + [Dispatch(id, text, final)]
    ensures text == [] ==> Send(sent, id, text, final) == sent
  {
    TrimmedIsFixed(text);
  }

  /** `resetTranscripts` (52-58): the three maps and the list are emptied; events
      already dispatched stay dispatched. */
  function ResetState(s: PanelState): (r: PanelState)
    ensures r.sent == s.sent && r.stored == map[] && r.emitted == map[]
    ensures r.pending == {} && r.live == []
  {
    PanelState(map[], map[], {}, [], s.sent)
  }

  /** Dispatched texts are non-empty and trimmed. */
  predicate SentClean(sent: seq<Dispatch>) {
    forall i :: 0 <= i < |sent| ==> sent[i].text != [] && Trimmed(sent[i].text)
  }

  /** What the panel keeps true: the shown list is valid, a timer is pending only for
      an id with a stored transcript, stored transcripts and dispatched texts are
      non-empty and trimmed. */
  ghost predicate PanelValid(s: PanelState) {
    UiValid(s.live) &&
    s.pending <= s.stored.Keys &&
    (forall x :: x in s.stored ==> s.stored[x] != [] && Trimmed(s.stored[x])) &&
    SentClean(s.sent)
  }

  // ---------------------------------------------------------------------------
  // processRealtimePayload (423-618)

  /** `scheduleEmit(id)`: the id's timer is (re)started. */
  function Schedule(s: PanelState, id: Json): PanelState {
    s.(pending := s.pending + {id})
  }

  /** Lines 542-580: a short ASCII fragment after a transcript with CJK only restarts
      the timer; any other non-empty canonical text replaces the stored one. */
  function DeltaStep(ops: Ops, s: PanelState, id: Json, texts: seq<string>): PanelState {
    if texts == [] then s
    else
      var cand := ops.candidate(texts);
      if cand == [] then s
      else
        var prev := Get(s.stored, id);
        var canonical := ops.canonical(prev, cand);
        if TinyAscii(canonical) && HasCjkBasic(prev) then Schedule(s, id)
        else if canonical != [] then Schedule(s.(stored := s.stored[id := canonical]), id)
        else s
  }

  /** Lines 583-605: the timer is cancelled, the stored and emitted entries removed,
      and a non-empty collapsed final text is dispatched as final, shown, and recorded
      as emitted in normalised form. */
  function DoneStep(ops: Ops, s: PanelState, id: Json): PanelState {
    var finalText := ops.collapse(Get(s.stored, id));
    var s1 := s.(pending := s.pending - {id}, stored := s.stored - {id}, emitted := s.emitted - {id});
    if finalText == [] then s1
    else
      var display := ops.display(finalText);
      s1.(emitted := s1.emitted[id := ops.normalize(display)],
          sent := Send(s1.sent, id, display, true),
          live := Updated(s1.live, id, display, ops.translit(finalText, display), true))
  }

  /** Lines 607-618: the id leaves all three maps and the shown list. */
  function ErrorStep(s: PanelState, id: Json): PanelState {
    s.(stored := s.stored - {id}, emitted := s.emitted - {id}, pending := s.pending - {id},
       live := WithoutId(s.live, id))
  }

  /** `processRealtimePayload(payload)`, given the texts gathered from the payload. */
  function Step(ops: Ops, s: PanelState, id: Json, texts: seq<string>, done: bool, error: bool): PanelState {
    var s1 := DeltaStep(ops, s, id, texts);
    var s2 := if done then DoneStep(ops, s1, id) else s1;
    if error then ErrorStep(s2, id) else s2
  }

  /** `processRealtimePayload(payload)`. */
  function Receive(ops: Ops, s: PanelState, p: Json): PanelState {
    if !Truthy(p) then s
    else
      var rid := ResponseId(p);
      if rid.None? then s
      else
        var id := rid.value;
        Step(ops, s, id, Gathered(p, id in s.stored, IsDone(p)), IsDone(p), IsError(p))
  }

  // ---------------------------------------------------------------------------
  // The timer callback of scheduleEmit (304-320)

  /** The emission rule: a non-empty display text whose normalised form is non-empty
      and differs from the last emitted one. */
  predicate Emits(ops: Ops, s: PanelState, id: Json) {
    var display := ops.display(Get(s.stored, id));
    var norm := ops.normalize(display);
    display != [] && norm != [] && norm != Get(s.emitted, id)
  }

  /** The timer of `id` fires: it is no longer pending, and when the emission rule
      holds the normalised text is recorded and the display text dispatched and shown. */
  function Fire(ops: Ops, s: PanelState, id: Json): PanelState {
    var stored := Get(s.stored, id);
    var display := ops.display(stored);
    var s1 := s.(pending := s.pending - {id});
    if Emits(ops, s, id) then
      s1.(emitted := s1.emitted[id := ops.normalize(display)],
          sent := Send(s1.sent, id, display, false),
          live := Updated(s1.live, id, display, ops.translit(stored, display), false))
    else s1
  }

  // ---------------------------------------------------------------------------
  // Properties

  /** A falsy payload, or one without a usable response id, changes nothing. */
  lemma ReceiveIgnored(ops: Ops, s: PanelState, p: Json)
    requires !Truthy(p) || ResponseId(p).None?
    ensures Receive(ops, s, p) == s
  {
  }

  /** A delta touches only the stored text and the timer of its own id. */
  lemma DeltaOnlyOwnId(ops: Ops, s: PanelState, id: Json, texts: seq<string>)
    ensures var r := DeltaStep(ops, s, id, texts);
      r.stored - {id} == s.stored - {id} && r.pending - {id} == s.pending - {id} &&
      r.emitted == s.emitted && r.live == s.live && r.sent == s.sent
  {
    var r := DeltaStep(ops, s, id, texts);
    assert r.stored - {id} == s.stored - {id};
  }

  /** Once the stored transcript holds CJK text, a delta never replaces it by a short
      ASCII fragment (574-576). */
  lemma DeltaKeepsCjk(ops: Ops, s: PanelState, id: Json, texts: seq<string>)
    requires HasCjkBasic(Get(s.stored, id))
    ensures var now := Get(DeltaStep(ops, s, id, texts).stored, id);
      now == Get(s.stored, id) || !TinyAscii(now)
  {
  }

  /** An error or refusal removes the id from the three maps and from the shown list,
      and nothing else changes. */
  lemma ReceiveError(ops: Ops, s: PanelState, p: Json, id: Json)
    requires Truthy(p) && ResponseId(p) == Some(id) && IsError(p)
    ensures Receive(ops, s, p) ==
      s.(stored := s.stored - {id}, emitted := s.emitted - {id}, pending := s.pending - {id},
         live := WithoutId(s.live, id))
  {
    assert !IsDone(p);
    var texts := Gathered(p, id in s.stored, false);
    var s1 := DeltaStep(ops, s, id, texts);
    DeltaOnlyOwnId(ops, s, id, texts);
    assert s1.stored - {id} == s.stored - {id};
    assert s1.pending - {id} == s.pending - {id};
  }

  /** A payload of a done type ends with the done step for its id, after its delta. */
  lemma ReceiveDone(ops: Ops, s: PanelState, p: Json, id: Json)
    requires Truthy(p) && ResponseId(p) == Some(id) && IsDone(p)
    ensures var s1 := DeltaStep(ops, s, id, Gathered(p, id in s.stored, true));
      Receive(ops, s, p) == DoneStep(ops, s1, id)
  {
    assert !IsError(p);
  }

  /** After a done event the id has neither a stored transcript nor a pending timer,
      and other ids keep their entries in the three maps. */
  lemma DoneClears(ops: Ops, s: PanelState, id: Json)
    ensures var r := DoneStep(ops, s, id);
      id !in r.stored && id !in r.pending &&
      r.stored == s.stored - {id} && r.pending == s.pending - {id} &&
      r.emitted - {id} == s.emitted - {id}
  {
    var r := DoneStep(ops, s, id);
    assert r.emitted - {id} == s.emitted - {id};
  }

  /** A non-empty collapsed final text is recorded as emitted in normalised form and
      shown last, as final; an empty one leaves no emitted entry and nothing shown or
      dispatched. */
  lemma DoneRecords(ops: Ops, s: PanelState, id: Json)
    ensures var r := DoneStep(ops, s, id);
      var f := ops.collapse(Get(s.stored, id));
      (f == [] ==> id !in r.emitted && r.sent == s.sent && r.live == s.live) &&
      (f != [] ==> id in r.emitted && r.emitted[id] == ops.normalize(ops.display(f)) &&
                   LastShown(r.live, id, ops.display(f), true))
  {
    var f := ops.collapse(Get(s.stored, id));
    if f != [] {
      var d := ops.display(f);
      UpdatedLast(s.live, id, d, ops.translit(f, d), true);
    }
  }

  /** The display text of a non-empty collapsed final text is dispatched once, as
      final, unless it is empty. */
  lemma DoneDispatches(ops: Ops, s: PanelState, id: Json)
    requires Sound(ops)
    ensures var r := DoneStep(ops, s, id);
      var f := ops.collapse(Get(s.stored, id));
      (f != [] && ops.display(f) != [] ==> r.sent == s.sent + [Dispatch(id, ops.display(f), true)]) &&
      (f == [] || ops.display(f) == [] ==> r.sent == s.sent)
  {
    var f := ops.collapse(Get(s.stored, id));
    if f != [] {
      var d := ops.display(f);
      SendTrimmed(s.sent, id, d, true);
    }
  }

  /** The last line shown is the one for `id`, with this text and finality. */
  predicate LastShown(live: seq<Entry>, id: Json, text: string, final: bool) {
    live != [] && live[|live| - 1].id == id && live[|live| - 1].text == text &&
    live[|live| - 1].final == final
  }

  lemma UpdatedLast(list: seq<Entry>, id: Json, text: string, translit: string, final: bool)
    ensures LastShown(Updated(list, id, text, translit, final), id, text, final)
  {
    UpdatedShape(list, id, text, translit, final);
  }

  /** Whatever the payload, the entries of every other id in the three maps are
      unchanged. */
  lemma ReceiveOthers(ops: Ops, s: PanelState, p: Json)
    requires Sound(ops)
    ensures var r := Receive(ops, s, p);
      ResponseId(p).Some? ==>
        var id := ResponseId(p).value;
        r.stored - {id} == s.stored - {id} && r.emitted - {id} == s.emitted - {id} &&
        r.pending - {id} == s.pending - {id}
  {
    if Truthy(p) && ResponseId(p).Some? {
      var id := ResponseId(p).value;
      StepOthers(ops, s, id, Gathered(p, id in s.stored, IsDone(p)), IsDone(p), IsError(p));
    }
  }

  lemma StepOthers(ops: Ops, s: PanelState, id: Json, texts: seq<string>, done: bool, error: bool)
    requires Sound(ops)
    ensures var r := Step(ops, s, id, texts, done, error);
      r.stored - {id} == s.stored - {id} && r.emitted - {id} == s.emitted - {id} &&
      r.pending - {id} == s.pending - {id}
  {
    hide Step, DeltaStep, DoneStep, ErrorStep;
    var s1 := DeltaStep(ops, s, id, texts);
    var s2 := if done then DoneStep(ops, s1, id) else s1;
    StepUnfold(ops, s, id, texts, done, error);
    DeltaOthers(ops, s, id, texts);
    if done {
      DoneOthers(ops, s1, id);
    }
    if error {
      ErrorOthers(s2, id);
      OthersTrans(ErrorStep(s2, id), s2, s1, id);
      OthersTrans(ErrorStep(s2, id), s1, s, id);
    } else {
      OthersTrans(s2, s1, s, id);
    }
  }

  /** The three maps agree with another state's on every id but `id`. */
  predicate SameOthers(a: PanelState, b: PanelState, id: Json) {
    a.stored - {id} == b.stored - {id} && a.emitted - {id} == b.emitted - {id} &&
    a.pending - {id} == b.pending - {id}
  }

  lemma OthersTrans(a: PanelState, b: PanelState, c: PanelState, id: Json)
    requires SameOthers(a, b, id) && SameOthers(b, c, id)
    ensures SameOthers(a, c, id)
  {
  }

  lemma StepUnfold(ops: Ops, s: PanelState, id: Json, texts: seq<string>, done: bool, error: bool)
    ensures var s1 := DeltaStep(ops, s, id, texts);
      var s2 := if done then DoneStep(ops, s1, id) else s1;
      Step(ops, s, id, texts, done, error) == if error then ErrorStep(s2, id) else s2
  {
  }

  lemma DeltaOthers(ops: Ops, s: PanelState, id: Json, texts: seq<string>)
    ensures SameOthers(DeltaStep(ops, s, id, texts), s, id)
  {
    DeltaOnlyOwnId(ops, s, id, texts);
  }

  lemma DoneOthers(ops: Ops, s: PanelState, id: Json)
    ensures SameOthers(DoneStep(ops, s, id), s, id)
  {
    DoneClears(ops, s, id);
    var r := DoneStep(ops, s, id);
    assert r.stored - {id} == s.stored - {id};
    assert r.pending - {id} == s.pending - {id};
  }

  lemma ErrorOthers(s: PanelState, id: Json)
    ensures SameOthers(ErrorStep(s, id), s, id)
  {
    var r := ErrorStep(s, id);
    assert r.stored - {id} == s.stored - {id};
    assert r.emitted - {id} == s.emitted - {id};
    assert r.pending - {id} == s.pending - {id};
  }

  /** When its timer fires the id is no longer pending and nothing is stored; the
      display text is dispatched (not final) and shown exactly when the emission rule
      holds, and its normalised form becomes the id's emitted text; otherwise emitted
      texts, dispatched events and the list are unchanged. */
  lemma FireSpec(ops: Ops, s: PanelState, id: Json)
    requires Sound(ops)
    ensures var r := Fire(ops, s, id);
      r.pending == s.pending - {id} && r.stored == s.stored
    ensures var r := Fire(ops, s, id);
      var d := ops.display(Get(s.stored, id));
      (Emits(ops, s, id) ==>
         r.sent == s.sent + [Dispatch(id, d, false)] &&
         id in r.emitted && r.emitted[id] == ops.normalize(d) &&
         r.emitted - {id} == s.emitted - {id} &&
         LastShown(r.live, id, d, false)) &&
      (!Emits(ops, s, id) ==> r.sent == s.sent && r.emitted == s.emitted && r.live == s.live)
  {
    var r := Fire(ops, s, id);
    var stored := Get(s.stored, id);
    var d := ops.display(stored);
    if Emits(ops, s, id) {
      SendTrimmed(s.sent, id, d, false);
      UpdatedLast(s.live, id, d, ops.translit(stored, d), false);
      assert r.emitted - {id} == s.emitted - {id};
    }
  }

  /** A second firing with nothing new stored emits nothing: firing is idempotent. */
  lemma FireIdempotent(ops: Ops, s: PanelState, id: Json)
    requires Sound(ops)
    ensures Fire(ops, Fire(ops, s, id), id) == Fire(ops, s, id)
  {
    var r := Fire(ops, s, id);
    FireSpec(ops, s, id);
    assert Get(r.stored, id) == Get(s.stored, id);
    assert !Emits(ops, r, id);
  }

  lemma SendClean(sent: seq<Dispatch>, id: Json, text: string, final: bool)
    requires SentClean(sent)
    ensures SentClean(Send(sent, id, text, final))
  {
    var cleaned := Trim(text);
    if cleaned != [] {
      var r := sent + [Dispatch(id, cleaned, final)];
      assert Send(sent, id, text, final) == r;
      forall i | 0 <= i < |r| ensures r[i].text != [] && Trimmed(r[i].text) {
        if i < |sent| { assert r[i] == sent[i]; }
      }
    }
  }

  /** Every payload keeps the panel valid. */
  lemma ReceiveValid(ops: Ops, s: PanelState, p: Json)
    requires Sound(ops) && PanelValid(s)
    ensures PanelValid(Receive(ops, s, p))
  {
    if Truthy(p) && ResponseId(p).Some? {
      var id := ResponseId(p).value;
      var texts := Gathered(p, id in s.stored, IsDone(p));
      var s1 := DeltaStep(ops, s, id, texts);
      DeltaValid(ops, s, id, texts);
      var s2 := if IsDone(p) then DoneStep(ops, s1, id) else s1;
      if IsDone(p) { DoneValid(ops, s1, id); }
      if IsError(p) { ErrorValid(s2, id); }
    }
  }

  lemma DeltaValid(ops: Ops, s: PanelState, id: Json, texts: seq<string>)
    requires Sound(ops) && PanelValid(s)
    ensures PanelValid(DeltaStep(ops, s, id, texts))
  {
    if texts != [] && ops.candidate(texts) != [] {
      var prev := Get(s.stored, id);
      var canonical := ops.canonical(prev, ops.candidate(texts));
      assert Trimmed(canonical);
    }
  }

  lemma DoneValid(ops: Ops, s: PanelState, id: Json)
    requires PanelValid(s)
    ensures PanelValid(DoneStep(ops, s, id))
  {
    var f := ops.collapse(Get(s.stored, id));
    if f != [] {
      var d := ops.display(f);
      UpdatedShape(s.live, id, d, ops.translit(f, d), true);
      SendClean(s.sent, id, d, true);
    }
  }

  lemma ErrorValid(s: PanelState, id: Json)
    requires PanelValid(s)
    ensures PanelValid(ErrorStep(s, id))
  {
    WithoutIdValid(s.live, id);
  }

  lemma FireValid(ops: Ops, s: PanelState, id: Json)
    requires PanelValid(s)
    ensures PanelValid(Fire(ops, s, id))
  {
    var stored := Get(s.stored, id);
    var d := ops.display(stored);
    if Emits(ops, s, id) {
      UpdatedShape(s.live, id, d, ops.translit(stored, d), false);
      SendClean(s.sent, id, d, false);
    }
  }

  // ---------------------------------------------------------------------------
  // The panel

  /** The panel's refs and list, updated in place by its callbacks. */
  class Panel {
    const ops: Ops
    var stored: map<Json, string>
    var emitted: map<Json, string>
    var pending: set<Json>
    var live: seq<Entry>
    var sent: seq<Dispatch>

    function State(): PanelState
      reads this
    {
      PanelState(stored, emitted, pending, live, sent)
    }

    ghost predicate Valid()
      reads this
    {
      Sound(ops) && PanelValid(State())
    }

    constructor(env: Env)
      ensures ops == OpsOf(env)
      ensures State() == PanelState(map[], map[], {}, [], [])
      ensures Valid()
    {
      ops := OpsOf(env);
      stored := map[];
      emitted := map[];
      pending := {};
      live := [];
      sent := [];
      OpsOfSound(env);
    }

    /** `resetTranscripts`. */
    method Reset()
      modifies this
      requires Valid()
      ensures State() == ResetState(old(State()))
      ensures Valid()
    {
      stored := map[];
      emitted := map[];
      pending := {};
      live := [];
    }

    /** The timer of `id`, started by `scheduleEmit`, fires. */
    method FireTimer(id: Json)
      modifies this
      requires Valid() && id in pending
      ensures State() == Fire(ops, old(State()), id)
      ensures Valid()
    {
      FireValid(ops, State(), id);
      pending := pending - {id};
      var current := Get(stored, id);
      var display := ops.display(current);
      var norm := ops.normalize(display);
      if display != [] && norm != [] && norm != Get(emitted, id) {
        emitted := emitted[id := norm];
        sent := Send(sent, id, display, false);
        live := Updated(live, id, display, ops.translit(current, display), false);
      }
    }

    /** `processRealtimePayload(payload)`. */
    method Process(payload: Json)
      modifies this
      requires Valid()
      ensures State() == Receive(ops, old(State()), payload)
      ensures Valid()
    {
      ReceiveValid(ops, State(), payload);
      if !Truthy(payload) {
        return;
      }
      var rid := ResponseId(payload);
      if rid.None? {
        return;
      }
      ghost var s0 := State();
      var id := rid.value;
      var done := IsDone(payload);
      var error := IsError(payload);
      var texts := Gathered(payload, id in stored, done);
      ApplyDelta(id, texts);
      if done {
        ApplyDone(id);
      }
      if error {
        ApplyError(id);
      }
      assert State() == Step(ops, s0, id, texts, done, error);
    }

    /** Lines 607-618. */
    method ApplyError(id: Json)
      modifies this
      ensures State() == ErrorStep(old(State()), id)
    {
      stored := stored - {id};
      emitted := emitted - {id};
      pending := pending - {id};
      live := WithoutId(live, id);
    }

    /** Lines 542-580. */
    method ApplyDelta(id: Json, texts: seq<string>)
      modifies this
      ensures State() == DeltaStep(ops, old(State()), id, texts)
    {
      if texts != [] {
        var cand := ops.candidate(texts);
        if cand != [] {
          var prev := Get(stored, id);
          var canonical := ops.canonical(prev, cand);
          if TinyAscii(canonical) && HasCjkBasic(prev) {
            pending := pending + {id};
          } else if canonical != [] {
            stored := stored[id := canonical];
            pending := pending + {id};
          }
        }
      }
    }

    /** Lines 583-605. */
    method ApplyDone(id: Json)
      modifies this
      ensures State() == DoneStep(ops, old(State()), id)
    {
      pending := pending - {id};
      var finalText := ops.collapse(Get(stored, id));
      stored := stored - {id};
      emitted := emitted - {id};
      if finalText != [] {
        var display := ops.display(finalText);
        emitted := emitted[id := ops.normalize(display)];
        sent := Send(sent, id, display, true);
        live := Updated(live, id, display, ops.translit(finalText, display), true);
      }
    }
  }
}

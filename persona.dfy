/** The tutor persona and the system prompts built from it
    (src/shared/personaDefaults.js).  Every persona field is held as the text its
    template literal renders; the numeric sliders are therefore decimal strings. */
module Persona {
  import opened Text
  import opened Wrappers

  datatype Persona = Persona(
    key: string, labelText: string, name: string, tone: string,
    strictness: string, humor: string, proactivity: string,
    english: string, length: string, speed: string, topic: string)

  /** A settings object: `None` marks a key the object does not have. */
  datatype Settings = Settings(
    key: Option<string>, labelText: Option<string>, name: Option<string>, tone: Option<string>,
    strictness: Option<string>, humor: Option<string>, proactivity: Option<string>,
    english: Option<string>, length: Option<string>, speed: Option<string>, topic: Option<string>)

  /** `PERSONA_PRESETS`. */
  const FriendlyCoach: Persona := Persona("friendlyCoach", "Friendly Coach", "Huayu Buddy",
    "warm, encouraging", "30", "40", "65", "always", "short", "slow", "daily life")
  const CheerfulPartner: Persona := Persona("cheerfulPartner", "Cheerful Partner", "Huayu Buddy",
    "cheerful, playful but respectful", "15", "70", "80", "always", "short", "slow", "hobbies")
  const StrictTeacher: Persona := Persona("strictTeacher", "Strict Teacher", "Huayu Laoshi",
    "clear, concise, professional", "75", "10", "60", "always", "short", "normal", "classroom")

  /** `DEFAULT_PERSONA`. */
  const DefaultPersona: Persona := FriendlyCoach

  /** The empty settings object `{}`. */
  const NoSettings: Settings := Settings(None, None, None, None, None, None, None, None, None, None, None)

  function Pick(o: Option<string>, d: string): (r: string)
    ensures o.None? ==> r == d
    ensures o.Some? ==> r == o.value
  {
    if o.Some? then o.value else d
  }

  /** `{ ...DEFAULT_PERSONA, ...settings }`: a key the settings have wins, the others keep the default. */
  function Merge(s: Settings): Persona {
    var d := DefaultPersona;
    Persona(Pick(s.key, d.key), Pick(s.labelText, d.labelText), Pick(s.name, d.name), Pick(s.tone, d.tone),
      Pick(s.strictness, d.strictness), Pick(s.humor, d.humor), Pick(s.proactivity, d.proactivity),
      Pick(s.english, d.english), Pick(s.length, d.length), Pick(s.speed, d.speed), Pick(s.topic, d.topic))
  }

  /** A complete persona used as a settings object. */
  function AsSettings(p: Persona): (s: Settings)
    ensures s.english == Some(p.english) && s.name == Some(p.name)
  {
    Settings(Some(p.key), Some(p.labelText), Some(p.name), Some(p.tone), Some(p.strictness), Some(p.humor),
      Some(p.proactivity), Some(p.english), Some(p.length), Some(p.speed), Some(p.topic))
  }

  /** `{ ...DEFAULT_PERSONA, english: 'never' }`. */
  function WithEnglish(p: Persona, english: string): (s: Settings)
    ensures Merge(s) == p.(english := english)
  {
    AsSettings(p).(english := Some(english))
  }

  /** Missing settings take the `friendlyCoach` values; present ones override them,
      field by field. */
  lemma MergeOverDefault(s: Settings)
    ensures Merge(s).key == (if s.key.Some? then s.key.value else FriendlyCoach.key)
    ensures Merge(s).labelText == (if s.labelText.Some? then s.labelText.value else FriendlyCoach.labelText)
    ensures Merge(s).name == (if s.name.Some? then s.name.value else FriendlyCoach.name)
    ensures Merge(s).tone == (if s.tone.Some? then s.tone.value else FriendlyCoach.tone)
    ensures Merge(s).strictness == (if s.strictness.Some? then s.strictness.value else FriendlyCoach.strictness)
    ensures Merge(s).humor == (if s.humor.Some? then s.humor.value else FriendlyCoach.humor)
    ensures Merge(s).proactivity == (if s.proactivity.Some? then s.proactivity.value else FriendlyCoach.proactivity)
    ensures Merge(s).english == (if s.english.Some? then s.english.value else FriendlyCoach.english)
    ensures Merge(s).length == (if s.length.Some? then s.length.value else FriendlyCoach.length)
    ensures Merge(s).speed == (if s.speed.Some? then s.speed.value else FriendlyCoach.speed)
    ensures Merge(s).topic == (if s.topic.Some? then s.topic.value else FriendlyCoach.topic)
  {
  }

  /** The two corner cases of the spread: empty settings give the default, and a
      complete persona comes back unchanged.  A missing english policy is `always` and a
      missing name `Huayu Buddy`. */
  lemma MergeCorners(s: Settings)
    ensures s.english.None? ==> Merge(s).english == "always"
    ensures s.name.None? ==> Merge(s).name == "Huayu Buddy"
    ensures Merge(NoSettings) == FriendlyCoach
    ensures forall p: Persona :: Merge(AsSettings(p)) == p
  {
  }

  /** Merging an already merged persona changes nothing, so `buildTutorPrompt` merging
      before calling `buildSystemPrompt` (which merges again) is harmless. */
  lemma MergeIdempotent(s: Settings)
    ensures Merge(AsSettings(Merge(s))) == Merge(s)
  {
  }

  // ---------------------------------------------------------------------------
  // buildSystemPrompt

  const AlwaysSpec: seq<string> := [
    "2) On each turn, output exactly 3 lines and nothing else:",
    "   Line 1: Hanzi",
    "   Line 2: Pinyin",
    "   Line 3: English (brief)"]
  const NeverSpec: seq<string> := [
    "2) On each turn, output exactly 2 lines and nothing else:",
    "   Line 1: Hanzi",
    "   Line 2: Pinyin",
    "   Do NOT add any English translation unless the learner explicitly asks for it."]
  const AutoSpec: seq<string> := [
    "2) On each turn, output 2–3 lines:",
    "   Line 1: Hanzi",
    "   Line 2: Pinyin",
    "   Line 3: English (brief) if learner might need it"]

  /** `linesSpec`: chosen by the `english` setting. */
  function LinesSpec(english: string): (r: seq<string>)
    ensures |r| == 4
  {
    if english == "always" then AlwaysSpec
    else if english == "never" then NeverSpec
    else AutoSpec
  }

  /** The three settings of `english` select three different output specifications. */
  lemma LinesSpecChoice(english: string)
    ensures LinesSpec(english) == AlwaysSpec <==> english == "always"
    ensures LinesSpec(english) == NeverSpec <==> english == "never"
    ensures LinesSpec(english) == AutoSpec <==> english != "always" && english != "never"
  {
    assert AlwaysSpec[0] != NeverSpec[0] by { assert AlwaysSpec[0][32] != NeverSpec[0][32]; }
    assert AlwaysSpec[0] != AutoSpec[0] by { assert |AlwaysSpec[0]| != |AutoSpec[0]|; }
    assert NeverSpec[0] != AutoSpec[0] by { assert |NeverSpec[0]| != |AutoSpec[0]|; }
  }

  /** One vocabulary entry; `pinyin` is `""` when the entry has none. */
  datatype VocabWord = VocabWord(hanzi: string, pinyin: string)

  /** `` `${w.hanzi} (${w.pinyin || ''})`.trim() ``. */
  function RenderWord(w: VocabWord): (r: string)
    ensures r != []
  {
    var t := w.hanzi + " (" + w.pinyin + ")";
    assert t[|w.hanzi| + 1] == '(';
    TrimKeepsNonSpace(t, '(');
    Trim(t)
  }

  function RenderWords(ws: seq<VocabWord>): (r: seq<string>)
    ensures |r| == |ws|
    ensures forall i :: 0 <= i < |ws| ==> r[i] == RenderWord(ws[i])
  {
    seq(|ws|, i requires 0 <= i < |ws| => RenderWord(ws[i]))
  }

  /** How many vocabulary words the prompt lists at most. */
  const VocabCap: nat := 40

  const NoVocab: string := "HSK-appropriate words"

  /** `vocab.slice(0, 40).map(...).join('、') || 'HSK-appropriate words'`. */
  function VocabList(vocab: seq<VocabWord>): string {
    var joined := Join(RenderWords(Shown(vocab)), "、");
    if joined == "" then NoVocab else joined
  }

  /** The words a prompt shows: the first forty. */
  function Shown(vocab: seq<VocabWord>): (r: seq<VocabWord>)
    ensures |r| <= VocabCap && |r| <= |vocab| && r == vocab[..|r|]
    ensures |vocab| <= VocabCap ==> r == vocab
  {
    if |vocab| <= VocabCap then vocab else vocab[..VocabCap]
  }

  /** The placeholder appears exactly when there are no words; otherwise the shown words are
      listed. */
  lemma VocabListPlaceholder(vocab: seq<VocabWord>)
    ensures vocab == [] ==> VocabList(vocab) == NoVocab
    ensures vocab != [] ==> VocabList(vocab) == Join(RenderWords(Shown(vocab)), "、")
  {
    var rs := RenderWords(Shown(vocab));
    if vocab != [] {
      assert rs[0] != [];
      JoinEmptyIffAllEmpty(rs, "、");
    }
  }

  /** Words past the fortieth never change the list. */
  lemma VocabListCapped(vocab: seq<VocabWord>)
    requires |vocab| > VocabCap
    ensures VocabList(vocab) == VocabList(vocab[..VocabCap])
  {
    assert Shown(vocab[..VocabCap]) == Shown(vocab);
  }

  function IdentityLine(p: Persona): string {
    "You are " + p.name + ", a " + p.tone + " Mandarin conversation tutor."
  }
  const GoalsLine: string := "Goals: natural back-and-forth, gentle micro-corrections, ALWAYS end with a question."
  function StyleLine(p: Persona): string {
    "Style: strictness=" + p.strictness + "/100, humor=" + p.humor + "/100, proactivity=" + p.proactivity + "/100."
  }
  const RulesLine: string := "Language output rules:"
  function PaceLine(p: Persona): string {
    "3) Keep sentences " + p.length + "; speak " + p.speed + "."
  }
  const LabelsLine: string := "4) Do not include labels like \"Hanzi:\" or \"Pinyin:\". Output only the raw lines."
  function VocabLine(vocab: seq<VocabWord>): string {
    "5) Prefer simple HSK vocabulary; bias to: " + VocabList(vocab) + "."
  }
  const CorrectingLine: string := "6) When correcting: one short tip + a natural re-ask."
  function TopicLine(p: Persona): string {
    "Topic focus: " + p.topic + "."
  }

  /** The thirteen lines of the system prompt, in order. */
  function PromptLines(s: Settings, vocab: seq<VocabWord>): (r: seq<string>)
    ensures |r| == 13
  {
    var p := Merge(s);
    [IdentityLine(p), GoalsLine, StyleLine(p), RulesLine]
    + LinesSpec(p.english)
    + [PaceLine(p), LabelsLine, VocabLine(vocab), CorrectingLine, TopicLine(p)]
  }

  /** `buildSystemPrompt(settings, vocab)`. */
  function BuildSystemPrompt(s: Settings, vocab: seq<VocabWord>): string {
    Join(PromptLines(s, vocab), "\n")
  }

  /** The output specification the `english` setting selects appears in the prompt as a block of
      whole lines, between the rules heading and the pace line; the prompt opens with the
      identity line. */
  lemma SystemPromptSpecBlock(s: Settings, vocab: seq<VocabWord>)
    ensures var p := Merge(s);
      StartsWith(BuildSystemPrompt(s, vocab), IdentityLine(p) + "\n")
    ensures var p := Merge(s);
      Contains(BuildSystemPrompt(s, vocab), Join([RulesLine] + LinesSpec(p.english) + [PaceLine(p)], "\n"))
  {
    var p := Merge(s);
    var ls := PromptLines(s, vocab);
    var head := [IdentityLine(p), GoalsLine, StyleLine(p)];
    var mid := [RulesLine] + LinesSpec(p.english) + [PaceLine(p)];
    var tail := [LabelsLine, VocabLine(vocab), CorrectingLine, TopicLine(p)];
    PromptLinesParts(s, vocab);
    JoinInfix(head, mid, tail, "\n");
    JoinFirst(ls, "\n");
  }

  lemma PromptLinesParts(s: Settings, vocab: seq<VocabWord>)
    ensures var p := Merge(s);
      PromptLines(s, vocab) == [IdentityLine(p), GoalsLine, StyleLine(p)]
        + ([RulesLine] + LinesSpec(p.english) + [PaceLine(p)])
        + [LabelsLine, VocabLine(vocab), CorrectingLine, TopicLine(p)]
  {
    var p := Merge(s);
    Regroup(IdentityLine(p), GoalsLine, StyleLine(p), RulesLine, LinesSpec(p.english),
      PaceLine(p), LabelsLine, VocabLine(vocab), CorrectingLine, TopicLine(p));
  }

  lemma Regroup<T>(a: T, b: T, c: T, d: T, xs: seq<T>, e: T, f: T, g: T, h: T, i: T)
    ensures [a, b, c, d] + xs + [e, f, g, h, i] == [a, b, c] + ([d] + xs + [e]) + [f, g, h, i]
  {
  }

  /** The block above, spelled out: the rules heading, the specification lines, the pace line. */
  lemma SpecBlockLines(english: string, pace: string)
    ensures Join([RulesLine] + LinesSpec(english) + [pace], "\n")
         == RulesLine + "\n" + Join(LinesSpec(english), "\n") + "\n" + pace
  {
    JoinConcat([RulesLine] + LinesSpec(english), [pace], "\n");
    JoinConcat([RulesLine], LinesSpec(english), "\n");
  }

  // ---------------------------------------------------------------------------
  // buildTutorPrompt

  const IntroHead: string := "You are proactive, warm, and curious. Use basic Mandarin (HSK1–3 words prioritized"

  /** `String(persona.english || 'auto')`. */
  function EnglishPolicy(p: Persona): string {
    if p.english == "" then "auto" else p.english
  }

  /** The line that tells the model when to translate. */
  function PolicyLine(policy: string): string {
    if policy == "always" then "- English for those sentences."
    else if policy == "never" then "- Do not provide English translations unless the learner explicitly requests them."
    else "- English only when specifically helpful."
  }

  /** `'; prefer: ' + bias` when the trimmed bias text is non-empty. */
  function PreferClause(biasText: string): string {
    var bias := Trim(biasText);
    if bias != "" then "; prefer: " + bias else ""
  }

  function ExtraLines(p: Persona, biasText: string): (r: seq<string>)
    ensures |r| == 6
  {
    [IntroHead + PreferClause(biasText) + ").",
     "Respond with grouped lines like:",
     "- Hanzi sentences (2–3).",
     "- Pinyin for those sentences.",
     PolicyLine(EnglishPolicy(p)),
     "Always end with a short follow-up question."]
  }

  /** `buildTutorPrompt(settings, { vocabulary, vocabBiasText })`. */
  function BuildTutorPrompt(s: Settings, vocabulary: seq<VocabWord>, biasText: string): string {
    var p := Merge(s);
    BuildSystemPrompt(AsSettings(p), vocabulary) + "\n\n" + Join(ExtraLines(p, biasText), "\n")
  }

  /** The tutor prompt is the system prompt for the same settings, a blank line, then the extra lines. */
  lemma TutorPromptExtendsSystemPrompt(s: Settings, vocabulary: seq<VocabWord>, biasText: string)
    ensures StartsWith(BuildTutorPrompt(s, vocabulary, biasText), BuildSystemPrompt(s, vocabulary) + "\n\n")
  {
    MergeIdempotent(s);
    var base := BuildSystemPrompt(s, vocabulary) + "\n\n";
    var t := BuildTutorPrompt(s, vocabulary, biasText);
    assert t == base + Join(ExtraLines(Merge(s), biasText), "\n");
    assert t[..|base|] == base;
  }

  /** The prefer clause appears, with the trimmed bias text, exactly when that text is non-empty. */
  lemma PreferClauseIffBias(s: Settings, vocabulary: seq<VocabWord>, biasText: string)
    ensures Trim(biasText) != "" ==>
      Contains(BuildTutorPrompt(s, vocabulary, biasText), "; prefer: " + Trim(biasText) + ").")
    ensures Trim(biasText) == "" ==>
      ExtraLines(Merge(s), biasText)[0] == IntroHead + ")."
  {
    var p := Merge(s);
    var xs := ExtraLines(p, biasText);
    if Trim(biasText) != "" {
      var base := BuildSystemPrompt(AsSettings(p), vocabulary) + "\n\n";
      FirstExtraLine(IntroHead, "; prefer: ", Trim(biasText), ").", xs[0]);
      ClauseInJoin(base, IntroHead, "; prefer: " + Trim(biasText) + ").", xs, "\n");
    }
  }

  lemma FirstExtraLine(head: string, key: string, bias: string, close: string, line: string)
    requires line == head + (key + bias) + close
    ensures line == head + (key + bias + close)
  {
  }

  /** A clause that ends the first of several joined lines occurs after its line's head. */
  lemma ClauseInJoin(base: string, head: string, clause: string, xs: seq<string>, sep: string)
    requires |xs| >= 2 && xs[0] == head + clause
    ensures Contains(base + Join(xs, sep), clause)
  {
    JoinFirst(xs, sep);
    InfixAt(base + head, clause, sep + Join(xs[1..], sep));
    assert base + Join(xs, sep) == (base + head) + clause + (sep + Join(xs[1..], sep));
  }

  /** The translation line follows the persona's english setting, `auto` when it is empty. */
  lemma TutorPolicyLine(s: Settings, biasText: string)
    ensures Merge(s).english == "never" ==>
      ExtraLines(Merge(s), biasText)[4] == "- Do not provide English translations unless the learner explicitly requests them."
    ensures Merge(s).english == "always" ==> ExtraLines(Merge(s), biasText)[4] == "- English for those sentences."
    ensures Merge(s).english != "always" && Merge(s).english != "never" ==>
      ExtraLines(Merge(s), biasText)[4] == "- English only when specifically helpful."
  {
    var p := Merge(s);
    assert ExtraLines(p, biasText)[4] == PolicyLine(EnglishPolicy(p));
    assert p.english == "never" || p.english == "always" ==> EnglishPolicy(p) == p.english;
  }
}

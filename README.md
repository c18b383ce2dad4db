# Huayu Buddy text and state core, in Dafny

Huayu Buddy is a Mandarin tutor. A browser app talks to a small Node server. The
tutor answers by chat or over a realtime voice session, and the avatar lip-syncs
to the pinyin. This project models the parts of the app that compute things.
Each source file becomes one Dafny module:

- `VisemeMap` and `VisemeAnimator`: the pinyin-to-viseme mapping and its equal-slice
  timeline, as written in `src/viseme/visemeMap.js` and as copied inline in
  `src/components/VisemeAnimator.jsx`, plus the lookup of the segment that is
  playing. The loop over the two-letter initials is a `method` with its invariants.
- `RealtimeText` and `RealtimePanel` (`src/components/RealtimePanel.jsx`):
  - the two transcript merges, with their count-down loops;
  - `stripToneGarble` and `normalizeForCompare`;
  - the recursive `extractTexts` over a parsed JSON tree;
  - the bounded, de-duplicated transcript list;
  - the three per-response maps that `processRealtimePayload` and the debounce
    timer of `scheduleEmit` update.

  The panel itself is a `class` whose methods change its fields. Each method is
  proved to equal a step function on the panel's state, and the properties are
  lemmas about those steps.
- `Chat` (`src/utils/chat.js`): the frame loop of `chatStream` over the reader's
  chunks, with nested loops and invariants. It is proved to agree with the writer
  of `/api/chat/stream` whatever the chunking.
- `Server` (`server/index.js`):
  - `coerceLevel`;
  - the workbook loader's loops and row normalisation;
  - the `/api/hsk` filter;
  - the realtime-session payload;
  - the text-to-speech voice whitelist;
  - the event-stream writer.
- `HskPicker` (`src/components/HSKPicker.jsx`):
  - `toggleLevel`;
  - the `levels` query, proved to be read back by the server as exactly the
    selected levels;
  - the normalisation of the server's answer;
  - `sampleRandom`, a method that runs its partial Fisher-Yates shuffle on a
    copied array.
- `Persona` (`src/shared/personaDefaults.js`): `DEFAULT_PERSONA`, the merge of
  settings over it, and `buildSystemPrompt` and `buildTutorPrompt`.
- `Conversation` (`src/components/Conversation.jsx`):
  - `parseSegments`, a method with the sentence loop, proved against a
    sentence-by-sentence reading;
  - the realtime-transcript upsert into the chat;
  - the message window `callGPT` sends.
- `PdfUpload` (`src/components/PDFUpload.jsx`): the line parser
  `parseLinesToVocab`, with its tokenisation, its search loops with `break` and
  `continue`, `isLikelyPinyin`, `cleanSpaces` and the paste preview.
- `ConversationStore` (`src/store/useConversationStore.js`): the app store, a
  `class` whose action methods replace its fields.

Four shared modules support them:

- `Text`: JavaScript string operations such as `trim`, `split`, `join`,
  `indexOf`, white-space collapsing and the character classes.
- `Json`: parsed JSON values, `?.`, `??`, truthiness and `JSON.stringify`.
- `Lists`: filter-and-map over sequences.
- `Wrappers`: `Option`.

Unknowable inputs become parameters:

- `hanziToPinyin`: the function `auto`.
- `Math.random`: the oracle `rnd`, whose k-th draw is `rnd(k)`.
- `JSON.parse` in the chat reader: the function `parse`.
- The panel's regex-heavy helpers: the fields of `RealtimePanel.Env`.
- The panel's timers: the set of pending response ids. A timer firing is a
  separate step.

Some behaviour worth knowing, each proved in the model:

- `extractTexts` takes a `transcript`, `transcription` or `caption` string twice.
  The explicit tests push it once and the member loop pushes it again
  (`RealtimeText.OwnTextTakenTwice`).
- `stripToneGarble`'s neighbour test can never fire. A greedy global match always
  covers a whole run of Latin letters (`RealtimeText.ReplacementUnguarded`).
- The inline copy of the viseme mapping in `VisemeAnimator.jsx` has no `ü`-to-`v`
  retry. On a bare `ü` it answers `aa` where the shared module answers `I`
  (`VisemeAnimator.UmlautDiffers`).
- `coerceLevel` turns a numeral too long for a double into level 1, not 6
  (`Server.CoerceLevelHugeNumeral`).
- `mergeTranscripts` (RealtimePanel.jsx:393-419) is modelled as written. The
  panel itself only uses the inline merge at lines 550-566.
- When no sentence gives a segment, `parseSegments`'s line fallback appends the
  first English-ish line to English pieces that the sentence loop has already
  collected. The same text can therefore appear twice
  (`Conversation.FallbackEnglish`, `Conversation.FallbackRepeatsEnglish`).

## Model

| member | source | states |
|---|---|---|
| VisemeMap.InitialShape | src/viseme/visemeMap.js:9-16 | the initials table: a known initial is one or two letters and maps to one of the avatar's visemes |
| VisemeMap.FinalShape | src/viseme/visemeMap.js:18-25 | the finals table: every known final maps to one of the avatar's visemes |
| VisemeMap.Normalize | src/viseme/visemeMap.js:31 | the normalised syllable holds only lower-case `a`-`z` and `ü`, and is no longer than the input |
| VisemeMap.ReplaceFirstUmlaut | src/viseme/visemeMap.js:43 | replacing the first `ü` by `v` keeps the length, and leaves a `ü`-free final unchanged |
| VisemeMap.Split | src/viseme/visemeMap.js:34-41 | initial and final concatenate back to the syllable, and the initial is empty or a known initial |
| VisemeMap.SyllableToViseme | src/viseme/visemeMap.js:30-47 | the loop over `zh`, `ch`, `sh` with `break`, then the one-letter initial, computes the syllable's viseme, which is one of the avatar's visemes |
| VisemeMap.EmptyIsSilence | src/viseme/visemeMap.js:31-32 | a syllable with no letters left maps to `sil` |
| VisemeMap.TwoLetterInitialWins | src/viseme/visemeMap.js:35-37 | `zhi` gives `CH` and `shi` gives `SS`: the two-letter initials are tried first |
| VisemeMap.OneLetterInitials | src/viseme/visemeMap.js:38-41 | `zi` and `ci` start with the one-letter initials and give `SS` |
| VisemeMap.InitialDecides | src/viseme/visemeMap.js:42-44 | a recognised initial decides the viseme whatever final follows it |
| VisemeMap.NoInitialUsesFinal | src/viseme/visemeMap.js:43-46 | without an initial the final is looked up as written, then with its first `ü` as `v`, else `aa` |
| VisemeMap.UmlautRetry | src/viseme/visemeMap.js:43 | a bare `ü` is found only through its `v` spelling and gives `I` |
| VisemeMap.VisemeIsKnown | src/viseme/visemeMap.js:30-47 | every syllable maps to one of the avatar's visemes |
| VisemeMap.TotalMs | src/viseme/visemeMap.js:52 | the total is at least 300 ms; a missing, zero or non-numeric duration gives 1200 ms |
| VisemeMap.SliceMs | src/viseme/visemeMap.js:51-53 | the slice width is positive and `n` slices add up to the total |
| VisemeMap.TimelineVisemes | src/viseme/visemeMap.js:50-56 | one segment per whitespace-separated token, in order, each with the lower-cased viseme of its token |
| VisemeMap.LayoutSlices | src/viseme/visemeMap.js:53-56 | segment `i` has width `w`, each ends where the next starts, the first starts at 0 and the last ends at `n * w` |
| VisemeMap.TimelineSlices | src/viseme/visemeMap.js:49-57 | the segments are contiguous, of equal width, start at 0 and end at the total |
| VisemeMap.EmptyTimeline | src/viseme/visemeMap.js:50 | empty or blank text gives an empty timeline |
| VisemeAnimator.SyllableToViseme | src/components/VisemeAnimator.jsx:17-24 | the inline copy's loop computes `INITIALS[init] \|\| FINALS[rest] \|\| 'aa'`, lower-cased, or `sil` |
| VisemeAnimator.AgreesWithoutUmlaut | src/components/VisemeAnimator.jsx:23 | on syllables without `ü` the inline copy equals the shared mapping, lower-cased |
| VisemeAnimator.UmlautDiffers | src/components/VisemeAnimator.jsx:23 | on a bare `ü` the copies differ: the inline copy falls back to `aa`, the shared one finds `I` |
| VisemeAnimator.AnimVisemes | src/components/VisemeAnimator.jsx:30 | one inline viseme per token, in order |
| VisemeAnimator.TimelinesCoincide | src/components/VisemeAnimator.jsx:25-31 | for `ü`-free text the inline timeline equals the shared module's timeline |
| VisemeAnimator.AnimTimelineShape | src/components/VisemeAnimator.jsx:26-30 | one segment per token; equal, contiguous slices from 0 to a total of at least 300 ms |
| VisemeAnimator.FindSegment | src/components/VisemeAnimator.jsx:111 | `find` returns the first segment covering the instant, or none when no segment covers it |
| VisemeAnimator.LayoutDisjoint | src/components/VisemeAnimator.jsx:110-111 | two different slices never cover the same instant |
| VisemeAnimator.LayoutLookup | src/components/VisemeAnimator.jsx:110-111 | on a layout of `n` slices the lookup succeeds exactly on `[0, n * w)`, and the segment found is the only one covering the instant |
| VisemeAnimator.FrameLookup | src/components/VisemeAnimator.jsx:108-112 | on a timeline with tokens, a segment is found exactly while `0 <= now < total`, and it is the only one covering `now` |
| VisemeAnimator.MorphIndex | src/components/VisemeAnimator.jsx:113-114 | the morph index is the lower-cased `viseme_` key's entry whenever that key is present; otherwise the bare viseme's entry when present; otherwise the `viseme_aa` entry; it is missing only when all three keys are |
| VisemeMap.Layout | src/viseme/visemeMap.js:53-56 | one segment per viseme, in order, carrying that viseme |
| VisemeMap.LastSliceEnds | src/viseme/visemeMap.js:53-56 | the last segment ends exactly at the total |
| Server.FirstDigitRun | server/index.js:51 | the match is absent exactly when there is no ASCII digit; otherwise it is the non-empty, maximal digit run at the first digit |
| Server.LevelOfValue | server/index.js:52-53 | the level is in 1..6; 1..6 is kept, larger finite values give 6, and 0 or a value that `Number` reads as `Infinity` gives 1 |
| Server.CoerceLevel | server/index.js:49-54 | `coerceLevel` always returns an integer level in 1..6 |
| Server.CoerceLevelOfNumeral | server/index.js:49-54 | the numeral of a level 1..6 is read back as that level, whatever the sheet name |
| Server.CoerceLevelIgnoresSheet | server/index.js:51 | when the trimmed value holds a digit, the sheet name plays no part |
| Server.CoerceLevelFromSheet | server/index.js:51 | when the value holds no digit, the sheet name's first digit run decides |
| Server.CoerceLevelDefault | server/index.js:52 | neither value nor sheet name holds a digit: level 1 |
| Server.LevelJustBelowInfinity | server/index.js:52-53 | the largest integer below the overflow threshold 2^1024 - 2^970 is still finite and is clamped to 6 |
| Server.CoerceLevelHugeNumeral | server/index.js:52-53 | a numeral too large for a double becomes `Infinity`, which is not finite, so the level is 1, not 6 |
| Server.DigitRunOfTrim | server/index.js:50-51 | trimming never changes the first digit run |
| Server.FirstPresent | server/index.js:81-85 | the `??` chain is absent exactly when no key is present, and otherwise yields a cell of the row |
| Server.FirstPresentIsFirst | server/index.js:81-85 | the first key present decides the chain, even when its cell is empty |
| Server.Cell | server/index.js:81-84 | a cell value is trimmed |
| Server.RowItem | server/index.js:81-87 | a row yields no item exactly when its hanzi is empty; an item is well formed (level 1..6, non-empty trimmed hanzi, trimmed pinyin and english) |
| Server.LoadHskWorkbook | server/index.js:70-95 | the loop over sheets, skipping missing ones, emits the items of their rows in order; every item is well formed; an unreadable workbook gives none |
| Server.LoadSheetRows | server/index.js:79-88 | the inner loop over one sheet's rows emits the rows' items in row order |
| Server.WorkbookWellFormed | server/index.js:81-87 | every item the loader emits is well formed |
| Server.RowsItemsFromRows | server/index.js:80-88 | every emitted item is the item of some row |
| Server.RowsItemsCoverRows | server/index.js:80-88 | the item of every row with a non-empty hanzi is emitted |
| Server.WantedLevels | server/index.js:138 | the wanted set is exactly the coerced levels of the comma-separated pieces, each in 1..6 |
| Server.FilterLevels | server/index.js:139 | an item is kept exactly when it is cached and its level is wanted |
| Server.HskQuery | server/index.js:133-141 | `count` is the number of items; a blank `levels` returns the whole cache; otherwise exactly the cached items whose level is wanted |
| Server.QueryOneLevel | server/index.js:135-139 | `?levels=n` for a level 1..6 returns exactly the cached items of level `n` |
| Server.EmptyPieceIsLevelOne | server/index.js:138 | an empty piece between commas counts as level 1 |
| Server.SessionPersona | server/index.js:164-167 | unless English is allowed (`true` or `'1'`) the persona's english policy is `never`; otherwise it is the default persona |
| Server.SessionInstructions | server/index.js:171 | the instructions start with the system prompt and a blank line, end with the Chinese-only instruction, and, unless English is allowed, carry the rules that forbid English |
| Server.RealtimeSession | server/index.js:153-171 | a missing API key is the error outcome; otherwise the payload carries the chosen model and voice and the session instructions |
| Server.SessionFields | server/index.js:159-170 | a given model is used as is, else the mini or preview model; mini is used when asked for or named; the voice is sent, trimmed, exactly when not mini and non-empty |
| Server.TtsRequest | server/index.js:270-275 | empty text is the 400 outcome; the voice is always allowed, is the lower-cased request voice exactly when that is allowed, and is `alloy` whenever it is not |
| Server.TtsDefaultVoice | server/index.js:271 | an absent voice is `alloy` |
| Server.TtsVoiceAnyCase | server/index.js:271-275 | `Nova` is accepted as `nova` |
| Server.TtsUnknownVoice | server/index.js:275 | every voice whose lower-cased name is outside the whitelist becomes `alloy` |
| Server.TtsRobotVoice | server/index.js:275 | for example `robot` becomes `alloy` |
| Server.DeltaOf | server/index.js:252-253 | a part hands on a delta only when its content is non-empty |
| Server.WriteStream | server/index.js:251-260 | the writer emits one `data:` frame per non-empty delta, in order, then one done frame, or the error frame when the stream fails |
| Server.FrameBody | server/index.js:253-260 | a frame is `data: ` and a one-line JSON object, then a blank line |
| HskPicker.Insert | src/components/HSKPicker.jsx:33 | inserting into an ascending list keeps it ascending and adds exactly the one element |
| HskPicker.SortAsc | src/components/HSKPicker.jsx:33 | `sort((a, b) => a - b)` yields an ascending permutation of its input |
| HskPicker.Without | src/components/HSKPicker.jsx:33 | `filter(x => x !== lv)` keeps exactly the elements other than `lv` |
| HskPicker.WithoutCount | src/components/HSKPicker.jsx:33 | the filter keeps every other element as often as it occurred, and no `lv` |
| HskPicker.WithoutSorted | src/components/HSKPicker.jsx:33 | the filter keeps an ascending list ascending |
| HskPicker.ToggleFlips | src/components/HSKPicker.jsx:30-37 | toggling flips the membership of `lv` and keeps every other level's |
| HskPicker.ToggleAddsSorted | src/components/HSKPicker.jsx:33 | an added level lands in an ascending list holding the previous levels and it |
| HskPicker.SortedUnique | src/components/HSKPicker.jsx:33 | two ascending lists with the same elements are equal |
| HskPicker.ToggleTwice | src/components/HSKPicker.jsx:30-37 | toggling a new level on and off again restores an ascending selection |
| HskPicker.Numerals | src/components/HSKPicker.jsx:27 | one decimal numeral per selected level, in order |
| HskPicker.LevelsParamTrimmed | src/components/HSKPicker.jsx:27 | the joined numerals are non-empty and carry no surrounding white space |
| HskPicker.LevelsParamSplit | src/components/HSKPicker.jsx:27 | splitting the query at commas gives the numerals back |
| HskPicker.LevelsWanted | src/components/HSKPicker.jsx:27 | the server's level set for the picker's query is exactly the selected levels |
| HskPicker.LevelsQueryRoundTrip | src/components/HSKPicker.jsx:55 | the server answers the picker's query with exactly the cached words of the selected levels |
| HskPicker.Pick | src/components/HSKPicker.jsx:46 | `Math.floor(Math.random() * (i + 1))` is an index in `0..i` |
| HskPicker.SwapPerm | src/components/HSKPicker.jsx:47 | a swap only reorders the elements |
| HskPicker.ShufflePerm | src/components/HSKPicker.jsx:44-48 | any number of shuffle rounds only reorders the copy |
| HskPicker.CeilBounds | src/components/HSKPicker.jsx:45 | for `0 < n < length` the loop runs `ceil(n)` rounds, between 1 and the length |
| HskPicker.SampleEmpty | src/components/HSKPicker.jsx:40-41 | an empty list, or a count that is not a positive finite number, gives no items |
| HskPicker.SampleAll | src/components/HSKPicker.jsx:42 | when there are no more items than asked for, all come back in their order |
| HskPicker.SampleDraws | src/components/HSKPicker.jsx:44-49 | otherwise exactly `ceil(n)` items come back (`n` for a whole `n`), a sub-multiset of the input |
| HskPicker.SampleRandom | src/components/HSKPicker.jsx:39-50 | the method over an array, shuffling a copy, returns the specified sample; the input array is not modified |
| HskPicker.PartialShuffle | src/components/HSKPicker.jsx:45-48 | the countdown loop performs `ceil(n)` rounds, each swapping the slot `length - 1 - k` with a drawn index no greater |
| HskPicker.SwapAt | src/components/HSKPicker.jsx:47 | the destructuring assignment swaps the two slots |
| HskPicker.LoopGuard | src/components/HSKPicker.jsx:45 | the real-valued loop test `i > length - 1 - n` holds exactly while fewer than `ceil(n)` rounds are done |
| HskPicker.StartIndex | src/components/HSKPicker.jsx:49 | `slice(length - n)` starts at `length - ceil(n)` |
| HskPicker.SampleIsShuffle | src/components/HSKPicker.jsx:44-49 | a partial count is served by the last `ceil(n)` slots after `ceil(n)` rounds |
| HskPicker.CopyOf | src/components/HSKPicker.jsx:44 | `[...items]` is a fresh array with the same elements |
| HskPicker.NormalizedWords | src/components/HSKPicker.jsx:63-68 | every kept word has a non-empty trimmed hanzi and trimmed pinyin and English and comes from an item; every item with a non-blank hanzi is kept |
| HskPicker.SampleSize | src/components/HSKPicker.jsx:70 | the count is `Infinity` or a number of at least 1, and a limit of at least 1 is kept |
| HskPicker.PreviewSize | src/components/HSKPicker.jsx:63-71 | a finite limit previews between one word and all of them when there are words, an infinite one previews none, and the preview is a sub-multiset of the words |
| ConversationStore.ArrayItems | src/store/useConversationStore.js:15-16 | an array's items, and nothing for any other value |
| ConversationStore.OrEmpty | src/store/useConversationStore.js:38 | `items \|\| []` is always truthy and keeps a truthy argument |
| ConversationStore.Store.constructor | src/store/useConversationStore.js:13-42 | the initial state: empty vocabulary and history, `null` phrase, empty response, `[]` HSK cache, not speaking |
| ConversationStore.Store.SetVocabulary | src/store/useConversationStore.js:15 | the vocabulary becomes the array's items, or empty for a non-array; nothing else changes |
| ConversationStore.Store.AppendVocabulary | src/store/useConversationStore.js:16 | the array's items are appended in order, a non-array appends nothing, and the old vocabulary stays as the prefix; nothing else changes |
| ConversationStore.Store.LoadSampleVocabulary | src/store/useConversationStore.js:17-24 | the vocabulary becomes the four sample words; nothing else changes |
| ConversationStore.Store.SetCurrentPhrase | src/store/useConversationStore.js:27 | only the current phrase changes |
| ConversationStore.Store.SetUserResponse | src/store/useConversationStore.js:30 | only the user's response changes |
| ConversationStore.Store.AddToHistory | src/store/useConversationStore.js:33 | exactly one entry is appended at the end and earlier entries stay; nothing else changes |
| ConversationStore.Store.ClearHistory | src/store/useConversationStore.js:34 | history and user response are emptied; the vocabulary and the rest stay |
| ConversationStore.Store.SetHskItems | src/store/useConversationStore.js:38 | the HSK cache becomes the argument, or `[]` when it is falsy; nothing else changes |
| ConversationStore.Store.SetIsSpeaking | src/store/useConversationStore.js:42 | the speaking flag becomes the truthiness of the argument; nothing else changes |
| Chat.Leftover | src/utils/chat.js:17-18 | what is left after the complete frames holds no `\n\n` |
| Chat.FramesStep | src/utils/chat.js:17-18 | cutting at the first separator: the frames of a longer text start with this frame |
| Chat.NoFrames | src/utils/chat.js:17 | a text without the separator has no complete frame and is left as it is |
| Chat.EventDelta | src/utils/chat.js:23 | a delta is handed on only when `evt.delta` is truthy |
| Chat.EffectOf | src/utils/chat.js:21-26 | a frame hands on at most one delta, exactly when its event has a truthy delta, and stops exactly when `done` is truthy; an `error` member has no effect |
| Chat.ChatStream | src/utils/chat.js:9-28 | the deltas handed on and whether a done event ended the stream are those of handling the complete frames of the concatenated chunks in order, however they were chunked; otherwise the buffer is what follows the last separator and holds no `\n\n` |
| Chat.ReadChunks | src/utils/chat.js:12-28 | the outer loop over the reader's chunks appends each to the buffer and drains it, with the same outcome as handling the whole text at once |
| Chat.DrainFrames | src/utils/chat.js:16-27 | the inner loop handles every complete frame of the buffer in order and returns its leftover, or stops at a done event |
| Chat.FramesAppend | src/utils/chat.js:15-18 | the frames of a longer text are the prefix's frames, then those of its leftover followed by the rest |
| Chat.HandleAppend | src/utils/chat.js:23-24 | handling two lists of frames in a row hands on the first's deltas and, unless it stopped, the second's |
| Chat.DataBody | src/utils/chat.js:18-20 | a `data: ` line whose JSON starts with `{` and ends with `}` carries exactly that JSON |
| Chat.EventOfBody | src/utils/chat.js:18-22 | the client reads each event the server writes back from its frame |
| Chat.ReadsWrittenEvents | src/utils/chat.js:21-26 | a delta frame hands on its text, the done frame stops, and the error frame, thrown and caught, has no effect |
| Chat.FrameThenRest | src/utils/chat.js:17-18 | one written frame is exactly one complete frame, with its separator consumed |
| Chat.HandleDeltaFrames | src/utils/chat.js:17-24 | the writer's delta frames are handled delta by delta, in order |
| Chat.HandleWritten | src/utils/chat.js:17-26 | the writer's output yields every delta, in order, then stops at done, or after an error waits with an empty buffer |
| Chat.RoundTrip | src/utils/chat.js:14-24 | whatever the chunking, the client hands on exactly the server's non-empty deltas, in order, and stops exactly when the stream ended with done |
| Persona.MergeOverDefault | src/shared/personaDefaults.js:43-57 | every one of the eleven fields is the settings value when the settings have that key and the `friendlyCoach` value otherwise |
| Persona.MergeCorners | src/shared/personaDefaults.js:43-57 | a missing english policy is `always` and a missing name `Huayu Buddy`; empty settings give `friendlyCoach`; a complete persona merges to itself |
| Persona.MergeIdempotent | src/shared/personaDefaults.js:105-106 | merging an already merged persona changes nothing, so merging twice is harmless |
| Persona.LinesSpec | src/shared/personaDefaults.js:59-80 | the output specification has four lines |
| Persona.LinesSpecChoice | src/shared/personaDefaults.js:59-80 | `always` selects the three-line specification, `never` the two-line one that forbids English, and anything else the two-to-three-line one, each exactly |
| Persona.RenderWord | src/shared/personaDefaults.js:84 | a rendered vocabulary word is never empty |
| Persona.Shown | src/shared/personaDefaults.js:83 | the prompt shows a prefix of at most forty words, all of them when there are no more |
| Persona.VocabListPlaceholder | src/shared/personaDefaults.js:82-85 | the placeholder `HSK-appropriate words` appears exactly when there are no words; otherwise the shown words joined with `、` |
| Persona.VocabListCapped | src/shared/personaDefaults.js:83 | words past the fortieth never change the list |
| Persona.PromptLines | src/shared/personaDefaults.js:87-98 | the system prompt has thirteen lines |
| Persona.SystemPromptSpecBlock | src/shared/personaDefaults.js:87-98 | the prompt opens with the identity line, and the selected specification appears as whole lines between the rules heading and the pace line |
| Persona.SpecBlockLines | src/shared/personaDefaults.js:91-93 | that block is the rules heading, the specification lines and the pace line, one per line |
| Persona.ExtraLines | src/shared/personaDefaults.js:111-122 | the tutor prompt adds six lines |
| Persona.TutorPromptExtendsSystemPrompt | src/shared/personaDefaults.js:106-124 | the tutor prompt begins with the system prompt for the same settings, then a blank line |
| Persona.PreferClauseIffBias | src/shared/personaDefaults.js:108-112 | the `; prefer: ` clause with the trimmed bias text appears in the prompt when that text is non-empty, and the first extra line has no clause otherwise |
| Persona.TutorPolicyLine | src/shared/personaDefaults.js:107-120 | the translation line follows the english policy, `auto` when it is empty |
| Persona.WithEnglish | src/shared/personaDefaults.js:57 | settings that override only the english policy merge to the persona with that policy |
| PdfUpload.SplitBy | src/components/PDFUpload.jsx:40-42 | a regex split always gives at least one piece |
| PdfUpload.SpacesPieces | src/components/PDFUpload.jsx:42 | the pieces of a split at white-space runs hold no white space |
| PdfUpload.Tokenize | src/components/PDFUpload.jsx:39-42 | the tokens are the tab split when it has three or more parts, else the ` - ` split, else the split at two or more spaces, else the split at every white-space run |
| PdfUpload.TokenizeSplits | src/components/PDFUpload.jsx:39-42 | a tab split joins back to the line; the last-resort split gives tokens without white space |
| PdfUpload.FirstHanzi | src/components/PDFUpload.jsx:49-52 | the Hanzi is empty exactly when no token has a Han character, and otherwise still contains one after cleaning |
| PdfUpload.FindHanzi | src/components/PDFUpload.jsx:50-52 | the loop with `break` returns the cleaned first token that has a Han character |
| PdfUpload.HanSurvives | src/components/PDFUpload.jsx:51 | cleaning the white space of a token keeps its Han characters |
| PdfUpload.FirstPinyin | src/components/PDFUpload.jsx:53-59 | the pinyin is empty exactly when no non-empty token other than the Hanzi looks like pinyin; otherwise it differs from the Hanzi and looks like pinyin |
| PdfUpload.FindPinyin | src/components/PDFUpload.jsx:54-59 | the loop with `continue` and `break` returns the first token picked as pinyin, cleaned |
| PdfUpload.RestTokens | src/components/PDFUpload.jsx:62-65 | the remaining tokens are exactly the cleaned, non-empty tokens that are neither the Hanzi nor the pinyin |
| PdfUpload.EnglishFrom | src/components/PDFUpload.jsx:66-68 | the English is empty exactly when nothing remains; when some remaining token is gloss-like, only the gloss-like ones make it up |
| PdfUpload.CleanJoinNonEmpty | src/components/PDFUpload.jsx:68 | joining tokens whose first one starts with a non-space character and cleaning the result leaves something |
| PdfUpload.ParseLine | src/components/PDFUpload.jsx:39-73 | a row has three non-empty fields; its Hanzi has a Han character and its pinyin looks like pinyin and differs from the Hanzi |
| PdfUpload.ParseLineKeeps | src/components/PDFUpload.jsx:71-73 | a line gives a row exactly when a token has a Han character, a token is picked as pinyin, and some other token remains |
| PdfUpload.ParseRow | src/components/PDFUpload.jsx:39-73 | the statement sequence of the loop body computes the row that the line gives |
| PdfUpload.Lines | src/components/PDFUpload.jsx:31-34 | the lines kept are trimmed and none is empty |
| PdfUpload.ParseLinesToVocab | src/components/PDFUpload.jsx:30-76 | the result is the rows of the text in line order, one per line that gives a row |
| PdfUpload.ParseEach | src/components/PDFUpload.jsx:36-75 | the loop over the lines pushes the row of each line that gives one, in order |
| PdfUpload.RowsFromLines | src/components/PDFUpload.jsx:30-76 | every row comes from some line, and every line that gives a row contributes it |
| PdfUpload.PastePreview | src/components/PDFUpload.jsx:88-93 | blank text shows no rows; otherwise the preview is the first `min(50, n)` of the `n` rows |
| Text.CollapseRuns | src/components/PDFUpload.jsx:23 | collapsing white space never lengthens the text; a leading run becomes one space, a leading non-space character stays first, every other character is a space or a non-space character of the input, and no two white-space characters are adjacent |
| Text.CleanSpaces | src/components/PDFUpload.jsx:23 | `cleanSpaces` leaves no white space at either end |
| Text.CleanSpacesIsJoinedWords | src/components/PDFUpload.jsx:23 | `cleanSpaces` gives exactly the text's white-space-free words, in order, joined by single spaces |
| Conversation.Prepare | src/components/Conversation.jsx:24-26 | the prepared text is trimmed and holds no carriage return |
| Conversation.Sentences | src/components/Conversation.jsx:36 | the lookbehind split always gives at least one sentence |
| Conversation.StripLabel | src/components/Conversation.jsx:27-32 | the text left after removing the labels is trimmed |
| Conversation.HanziOf | src/components/Conversation.jsx:51-55 | the Hanzi kept for speech holds only Han characters and CJK punctuation, and is non-empty for a Han sentence |
| Conversation.DropEnds | src/components/Conversation.jsx:64 | removing the trailing run of sentence ends leaves a prefix of the sentence, and only sentence ends were removed |
| Conversation.ScanParts | src/components/Conversation.jsx:40-70 | the loop with `lastIdx` builds the segments and English pieces that the sentence-by-sentence reading gives |
| Conversation.ScanSegments | src/components/Conversation.jsx:44-59 | there is one segment per Han sentence, in order, holding that sentence's Hanzi |
| Conversation.StepSegments | src/components/Conversation.jsx:49-69 | one round adds a segment exactly for a Han sentence and keeps every earlier Hanzi |
| Conversation.ScanEnglish | src/components/Conversation.jsx:67-69 | the English pieces are the English-ish sentences, trimmed, in order |
| Conversation.ScanHanzi | src/components/Conversation.jsx:51-58 | every segment the loop builds has a non-empty Hanzi made of Han characters and CJK punctuation |
| Conversation.LastPinyin | src/components/Conversation.jsx:60-66 | the newest segment's pinyin is the pinyin-only sentences read since its Han sentence, cleaned and joined by single spaces |
| Conversation.EarlierSegmentsFixed | src/components/Conversation.jsx:62-65 | a new sentence never changes any segment but the newest |
| Conversation.PinyinWithoutHanzi | src/components/Conversation.jsx:62 | a pinyin-only sentence read before any Han sentence is dropped |
| Conversation.Find | src/components/Conversation.jsx:78-80 | `find` returns a member that satisfies the test, and none only when no member does |
| Conversation.Fallback | src/components/Conversation.jsx:72-83 | the fallback gives at most one segment, whose Hanzi has a Han character, and adds at most one English piece at the end |
| Conversation.Hydrate | src/components/Conversation.jsx:85-98 | hydration keeps the Hanzi; the pinyin is the automatic one or the cleaned given one, and ignoring white space it is the automatic one whenever that has content |
| Conversation.Hydrated | src/components/Conversation.jsx:85 | every segment is hydrated, in order |
| Conversation.ParseSegments | src/components/Conversation.jsx:23-102 | the method computes the parse of the text |
| Conversation.FallbackEnglish | src/components/Conversation.jsx:72-101 | without a Han sentence, the English is the English-ish sentences followed by the first English-ish line, joined by spaces |
| Conversation.FallbackRepeatsEnglish | src/components/Conversation.jsx:72-101 | a label-free English reply without white space, such as `Thanks!`, comes back as its English twice, separated by a space |
| Conversation.ParseShape | src/components/Conversation.jsx:44-101 | with a Han sentence there is one segment per Han sentence, in order, and the English is the English-ish sentences joined by spaces; without one there is at most one segment |
| Conversation.FindIndex | src/components/Conversation.jsx:149 | `findIndex` gives the first message with the realtime id, or -1 exactly when none has it |
| Conversation.UpsertCases | src/components/Conversation.jsx:135-169 | an event without text changes nothing; one without an id appends a message; one with a new id appends it; one with a known id replaces exactly that message |
| Conversation.UpsertDistinct | src/components/Conversation.jsx:143-169 | the upsert keeps at most one message per realtime id |
| Conversation.UpsertIdempotent | src/components/Conversation.jsx:148-169 | delivering the same event with an id twice leaves the chat as delivering it once |
| Conversation.Recent | src/components/Conversation.jsx:239-241 | the recent window is the newest `min(8, n)` messages, in order, reduced to role and content |
| Conversation.RoleContent | src/components/Conversation.jsx:241 | the messages reduced to role and content, one per message, in order |
| Conversation.RequestShape | src/components/Conversation.jsx:223-246 | no request is made for blank user text; otherwise the request is the system prompt, then the recent window, then the trimmed user text |
| RealtimeText.LongestOverlap | src/components/RealtimePanel.jsx:556-563 | the overlap found is 0 or lies in the searched range and matches, and no wider overlap in the range matches |
| RealtimeText.FindOverlap | src/components/RealtimePanel.jsx:556-563 | the count-down loop with `break` finds the widest matching overlap in the range, or 0 |
| RealtimeText.CjkCount | src/components/RealtimePanel.jsx:399-400 | the ideograph count is at most the length, and is 0 exactly when the text has no ideograph in U+4E00-U+9FFF |
| RealtimeText.MergeOverlap | src/components/RealtimePanel.jsx:406-413 | the overlap `mergeTranscripts` uses is 0 or lies between 4 and 80 and matches |
| RealtimeText.MergeTranscripts | src/components/RealtimePanel.jsx:393-419 | the early returns and the loop compute the merge of the two transcripts |
| RealtimeText.OverlapJoin | src/components/RealtimePanel.jsx:415 | joining over a matching overlap of `k` starts with the stored text, ends with the candidate and is `k` shorter than both together |
| RealtimeText.MergedShape | src/components/RealtimePanel.jsx:393-419 | `mergeTranscripts` returns one of its arguments, or a join that starts with the first, ends with the second and saves at least four characters |
| RealtimeText.MergedContainment | src/components/RealtimePanel.jsx:394-397 | an empty side gives the other side, and a side containing the other is returned |
| RealtimeText.MergedByOverlap | src/components/RealtimePanel.jsx:402-418 | with neither side clearly richer in ideographs, the widest overlap of 4 to 80 characters is used; with none, the longer side is kept, ties going to the stored text |
| RealtimeText.JoinTranscripts | src/components/RealtimePanel.jsx:550-566 | the inline merge with its loop computes the merged transcript |
| RealtimeText.JoinedKeepsBoth | src/components/RealtimePanel.jsx:550-566 | the inline merge loses no text: it contains both the stored transcript and the candidate |
| RealtimeText.JoinedIsShortest | src/components/RealtimePanel.jsx:555-565 | when neither text contains the other, the inline merge is the shortest string that starts with the stored text and ends with the candidate |
| RealtimeText.LatinRunSpan | src/components/RealtimePanel.jsx:181 | a run consists of Latin letters and ends at the end of the text or before another character |
| RealtimeText.ReplaceAtMatch | src/components/RealtimePanel.jsx:180-201 | at a maximal run of three or more Latin letters the scan emits the callback's result and resumes after the run |
| RealtimeText.ReplacementUnguarded | src/components/RealtimePanel.jsx:183-193 | a match that is a whole run has no Latin neighbour, so the neighbour test never fires |
| RealtimeText.ReplaceFromIsDrop | src/components/RealtimePanel.jsx:180-201 | from a run boundary, the greedy global replace equals dropping every garbled maximal run |
| RealtimeText.StripIsDropGarbled | src/components/RealtimePanel.jsx:177-202 | `stripToneGarble` drops exactly the maximal runs of three or more Latin letters that the diacritic counts call garbled |
| RealtimeText.DropKeepsNonLatin | src/components/RealtimePanel.jsx:180-201 | stripping removes Latin letters only: every other character survives, in order |
| RealtimeText.DropIdempotent | src/components/RealtimePanel.jsx:177-202 | stripping twice gives the same text as stripping once |
| RealtimeText.Push | src/components/RealtimePanel.jsx:113-116 | `pushString` adds at most one string, the trimmed text, and nothing exactly when the trimmed text is empty |
| RealtimeText.ExtractTexts | src/components/RealtimePanel.jsx:90-92 | an absent node contributes nothing |
| RealtimeText.VisitPushable | src/components/RealtimePanel.jsx:117-158 | everything `visit` pushes is a non-empty trimmed string |
| RealtimeText.ExtractPushable | src/components/RealtimePanel.jsx:90-161 | every text extracted from an event is non-empty and trimmed |
| RealtimeText.ExtractString | src/components/RealtimePanel.jsx:119-123 | a top-level string is taken as its trimmed text |
| RealtimeText.ExtractZero | src/components/RealtimePanel.jsx:150-152 | the top-level number 0 is skipped as falsy, while a member `delta: 0` gives "0" |
| RealtimeText.ExtractObj | src/components/RealtimePanel.jsx:125-157 | an object gives its own text members, then its members in order |
| RealtimeText.WantedKey | src/components/RealtimePanel.jsx:105-111 | a lower-case key that is not ignored and mentions a wanted word is taken |
| RealtimeText.IgnoredKey | src/components/RealtimePanel.jsx:94-108 | a lower-case ignored key is not taken |
| RealtimeText.IdMemberIgnored | src/components/RealtimePanel.jsx:150-152 | a string under the key `id` is never taken |
| RealtimeText.TextMemberOnce | src/components/RealtimePanel.jsx:134-148 | the `text` member of an untyped object is taken once, since the member loop skips it |
| RealtimeText.OwnTextTakenTwice | src/components/RealtimePanel.jsx:137-156 | a `transcript`, `transcription` or `caption` string is taken twice: once by the explicit test for its key and again by the member loop, which skips only `text` and `type` and whose pattern matches all three keys |
| RealtimeText.WithoutId | src/components/RealtimePanel.jsx:167 | the filter drops exactly the lines with the id and keeps every other line |
| RealtimeText.LastN | src/components/RealtimePanel.jsx:169 | `slice(-12)` keeps the newest `min(n, 12)` lines, in order |
| RealtimeText.WithoutIdDistinct | src/components/RealtimePanel.jsx:167 | filtering keeps the ids distinct |
| RealtimeText.UpdatedShape | src/components/RealtimePanel.jsx:164-174 | after an update the new line is the last one and the only line with its id; every other line was already shown, at most 12 remain, and distinct ids stay distinct |
| RealtimeText.WithoutIdValid | src/components/RealtimePanel.jsx:167 | filtering keeps the list valid: distinct ids, at most 12 lines |
| RealtimeText.UpdatedKeepsRecent | src/components/RealtimePanel.jsx:167-169 | a line with another id survives an update while fewer than 12 lines remain after the filter |
| RealtimePanel.Display | src/components/RealtimePanel.jsx:570 | the display text (the Chinese part, or the whole text) is trimmed |
| RealtimePanel.RemoveNoise | src/components/RealtimePanel.jsx:212 | no punctuation-class character survives, every character kept comes from the input, and every input character outside the class is kept |
| RealtimePanel.RemoveNoiseFixed | src/components/RealtimePanel.jsx:212 | a text without punctuation-class characters is returned whole |
| RealtimePanel.Normalize | src/components/RealtimePanel.jsx:204-221 | the comparison form holds no white space, no punctuation-class character and no ASCII upper-case letter, and every other character of the trimmed, denoised and tone-stripped text is in it, lower-cased |
| RealtimePanel.Squash | src/components/RealtimePanel.jsx:212-217 | dropping punctuation and white space, then lower-casing, leaves no white space, punctuation or ASCII upper case, and keeps every other input character, lower-cased |
| RealtimePanel.SquashIdempotent | src/components/RealtimePanel.jsx:212-217 | squashing an already squashed text changes nothing |
| RealtimePanel.IdCandidates | src/components/RealtimePanel.jsx:428-435 | the id is looked up in seven places, in the order of the `??` chain |
| RealtimePanel.ResponseId | src/components/RealtimePanel.jsx:428-437 | a response id the panel acts on is truthy |
| RealtimePanel.ResponseIdFirst | src/components/RealtimePanel.jsx:428-437 | the first candidate that is neither absent nor `null` decides: its value when truthy, and otherwise the payload is ignored even if a later candidate is usable |
| RealtimePanel.GatherAllPushable | src/components/RealtimePanel.jsx:446-447 | every gathered text is a non-empty trimmed string |
| RealtimePanel.GatheredTexts | src/components/RealtimePanel.jsx:445-467 | every gathered text is non-empty and trimmed, and when the eight primary sources yield text no fallback is consulted |
| RealtimePanel.Candidate | src/components/RealtimePanel.jsx:542-548 | the candidate is trimmed |
| RealtimePanel.Canonical | src/components/RealtimePanel.jsx:550-570 | the canonical text is trimmed |
| RealtimePanel.OpsOfSound | src/components/RealtimePanel.jsx:570 | the panel's own text operations give trimmed display and canonical texts |
| RealtimePanel.SendTrimmed | src/components/RealtimePanel.jsx:60-78 | a trimmed non-empty text is dispatched as it is, with its id and finality; an empty one is not dispatched |
| RealtimePanel.SendClean | src/components/RealtimePanel.jsx:62-63 | dispatching keeps every dispatched text non-empty and trimmed |
| RealtimePanel.ResetState | src/components/RealtimePanel.jsx:52-58 | a reset empties the three maps and the shown list; dispatched events stay |
| RealtimePanel.ReceiveIgnored | src/components/RealtimePanel.jsx:425-437 | a falsy payload, or one without a usable response id, changes nothing |
| RealtimePanel.DeltaOnlyOwnId | src/components/RealtimePanel.jsx:542-580 | a delta changes only the stored text and the timer of its own id; emitted texts, the shown list and dispatches are untouched |
| RealtimePanel.DeltaKeepsCjk | src/components/RealtimePanel.jsx:572-579 | once the stored transcript holds CJK text, a delta never replaces it with a short ASCII fragment |
| RealtimePanel.ReceiveError | src/components/RealtimePanel.jsx:608-618 | an error or refusal removes its id from the three maps and the shown list, and nothing else changes |
| RealtimePanel.ReceiveDone | src/components/RealtimePanel.jsx:439-606 | a payload of a done type applies its delta first, then the done step for its id |
| RealtimePanel.DoneClears | src/components/RealtimePanel.jsx:583-592 | after a done event the id has neither a stored transcript nor a pending timer, and every other id keeps its entries |
| RealtimePanel.DoneRecords | src/components/RealtimePanel.jsx:589-605 | a non-empty collapsed final text is recorded as emitted in comparison form and shown last as final; an empty one records, shows and dispatches nothing |
| RealtimePanel.DoneDispatches | src/components/RealtimePanel.jsx:593-603 | the display text of a non-empty final text is dispatched once, as final, unless it is empty |
| RealtimePanel.UpdatedLast | src/components/RealtimePanel.jsx:164-174 | after an update the last line shown is the id's, with the given text and finality |
| RealtimePanel.ReceiveOthers | src/components/RealtimePanel.jsx:423-618 | whatever the payload, every other id's entries in the three maps are unchanged |
| RealtimePanel.StepOthers | src/components/RealtimePanel.jsx:542-618 | the delta, done and error steps together leave every other id's entries in the three maps unchanged |
| RealtimePanel.FireSpec | src/components/RealtimePanel.jsx:300-320 | when its timer fires the id stops being pending and stored texts stay; the display text is dispatched, not final, shown and recorded in comparison form exactly when the emission rule holds; otherwise nothing else changes |
| RealtimePanel.FireIdempotent | src/components/RealtimePanel.jsx:309-319 | a second firing with nothing new stored emits nothing |
| RealtimePanel.ReceiveValid | src/components/RealtimePanel.jsx:423-618 | every payload keeps the panel valid: the shown list has distinct ids and at most 12 lines, timers are pending only for stored ids, stored and dispatched texts are non-empty and trimmed |
| RealtimePanel.DeltaValid | src/components/RealtimePanel.jsx:542-580 | a delta keeps the panel valid |
| RealtimePanel.DoneValid | src/components/RealtimePanel.jsx:583-606 | a done step keeps the panel valid |
| RealtimePanel.ErrorValid | src/components/RealtimePanel.jsx:608-618 | an error step keeps the panel valid |
| RealtimePanel.FireValid | src/components/RealtimePanel.jsx:300-320 | a timer firing keeps the panel valid |
| RealtimePanel.Panel.constructor | src/components/RealtimePanel.jsx:44-50 | the refs start as empty maps and the shown list as empty, with the panel valid |
| RealtimePanel.Panel.Reset | src/components/RealtimePanel.jsx:52-58 | the panel's new state is the reset of the old one, and the panel stays valid |
| RealtimePanel.Panel.FireTimer | src/components/RealtimePanel.jsx:300-320 | the panel's new state is the old one after the timer of `id` fires, and the panel stays valid |
| RealtimePanel.Panel.Process | src/components/RealtimePanel.jsx:423-618 | the panel's new state is the old one after the payload, and the panel stays valid |
| RealtimePanel.Panel.ApplyError | src/components/RealtimePanel.jsx:608-618 | the panel's new state is the error step of the old one |
| RealtimePanel.Panel.ApplyDelta | src/components/RealtimePanel.jsx:542-580 | the panel's new state is the delta step of the old one |
| RealtimePanel.Panel.ApplyDone | src/components/RealtimePanel.jsx:583-606 | the panel's new state is the done step of the old one |
| Json.Coalesce | src/components/RealtimePanel.jsx:428-436 | a `??` chain gives a present, non-null element of the chain, and nothing only when every element is absent or `null` |
| Json.CoalesceFirst | src/components/RealtimePanel.jsx:428-436 | the first element that is present and not `null` decides the chain |
| Json.Quote | server/index.js:253 | `JSON.stringify` of a string is wrapped in double quotes and holds no line break |
| Json.SingleMemberLine | server/index.js:253-255 | a one-member object whose value is a string or a boolean is written between braces on one line |

## Left out

- Strings are sequences of code points. JavaScript lengths and `slice` offsets count UTF-16 code units, so positions differ for characters outside the Basic Multilingual Plane.
- Unicode property classes are written as explicit code-point ranges:
  - `\p{Script=Han}` as the Han blocks;
  - the gloss class `[\p{Letter}\p{Number}\p{Punctuation}\p{Separator}]` as exact on ASCII and approximate beyond it;
  - `\s` as JavaScript's white-space set.

  `toLowerCase` is modelled on ASCII letters and `Ü` only.
- `Json.Lookup` returns the first member with a given key. `JSON.parse` keeps the last one, so the model assumes that parsed objects have distinct keys.
- Object identity is not modelled. `extractTexts`'s `seen` set never fires on a tree that `JSON.parse` built.
- `collapseRepetition`, `sanitizeCandidate` and `extractTransliteration` (RealtimePanel.jsx:224-290, 334-390, 469-540) rely on back-references, script lookaheads and sticky iteration. They are abstract functions with only the empty-input behaviour the source shows. The `pcm16inf` filter of `normalizeForCompare` and `hanziToPinyin` are abstract functions too.
- RealtimePanel.Candidate: states only that the candidate is trimmed, because the transformations it is built from are abstract.
- RealtimePanel.Canonical: states only that the canonical text is trimmed, for the same reason.
- `handleRealtimeMessage`'s decoding of binary and Blob messages, the `TextDecoder`, the data channel, WebRTC, the microphone and audio playback are out of scope. So are `connect`, `disconnect`, `togglePTT` and the analyser (RealtimePanel.jsx:748-1021). These are browser plumbing. The model starts from a parsed payload.
- The reader of `chatStream` is given as a sequence of already decoded string chunks. The network and `TextDecoder` are not modelled.
- Durations and times are exact reals. JavaScript's floating-point rounding of `durationMs / n` and of `i * slice` is not modelled. The amplitude fallback of the animator (VisemeAnimator.jsx:123-131), the avatar's blink and smoothing maths, and the microphone level hooks are floating-point animation and are left out.
- HskPicker.NormalizedWords: a word's level is the value given, or 1. The conversion `Number(...)` of the level is not modelled. `fetchHSK` also reports `total`, `count` and `source` into component state; those are not modelled.
- The count of `sampleRandom` and the picker's limit are given as JavaScript numbers that have already been converted: a finite real, `NaN` or an infinity. The conversion from the raw value is not modelled. `coerceLevel` only converts a run of decimal digits, and the model reads that exactly, including the overflow to `Infinity`.
- Server routes, the OpenAI SDK and upstream `fetch` calls, XLSX file reading and HTTP status handling are left out. The server is modelled as the values its pure rules compute: the workbook as parsed sheets, and outcome datatypes for the missing API key and the missing text.
- `localStorage` is not modelled: the live persona in `getLivePersona`, the `speakEnglishAudio` flag and the settings panels. The persona that is passed in stands for what was read.
- In `src/components/Conversation.jsx`, `vocabBiasSnippet` (180-195), `speakChineseSegments` (197-219) and the handling of the tutor's reply after the `fetch` in `callGPT` are left out. They are presentation, audio or network code. A chat message's content is modelled as a string.
- The store's actions are modelled as methods that assign fields. Zustand's subscription and re-render machinery is not modelled. The model does not distinguish `undefined` from `null`: an `undefined` argument is passed as `Null`, while `setCurrentPhrase` and `setUserResponse` would store `undefined` itself.
- Persona.MergeOverDefault: a settings key that is absent takes the default. A key that is present but holds `undefined` would override the default under the spread; the model does not distinguish it from an absent key.
- RealtimePanel.RemoveNoise: states which characters are kept and which are dropped, not that the kept ones stay in order.
- RealtimePanel.Squash: states which characters survive, lower-cased, not their order.
- RealtimePanel.Normalize: states which characters survive, lower-cased, not their order; `pcm16inf` is abstract.
- The pdf.js text extraction of `PDFUpload.jsx` is I/O: parsing starts from the extracted text.
- Electron, the build configuration, text-to-speech and speech-to-text clients, the health card and the event helpers of `src/viseme/visemeBus.js` are not part of this model. They are glue or I/O.

/** The client side of the chat event stream (src/utils/chat.js): the received text is
    cut into frames at each blank line, `data:` frames are parsed as JSON, deltas are
    handed on in order and a done event ends the stream.  The reader's chunks are the
    already-decoded strings; `JSON.parse` is the parameter `parse` (`None` when it throws). */
module Chat {
  import opened Wrappers
  import opened Text
  import opened Json
  import opened Lists
  import S = Server

  const Separator: string := "\n\n"

  /** The concatenation of the chunks, in arrival order. */
  function Concat(chunks: seq<string>): string {
    if chunks == [] then "" else chunks[0] + Concat(chunks[1..])
  }

  /** The complete frames of a text: the pieces before each `\n\n`, searched from the left. */
  function Frames(text: string): seq<string>
    decreases |text|
  {
    var i := IndexOf(text, Separator);
    if i < 0 then [] else [text[..i]] + Frames(text[i + 2..])
  }

  /** What is left of a text after its complete frames: it holds no `\n\n`. */
  function Leftover(text: string): (r: string)
    ensures !Contains(r, Separator)
    decreases |text|
  {
    var i := IndexOf(text, Separator);
    if i < 0 then text else Leftover(text[i + 2..])
  }

  /** `buf` split at its first separator: the frames of a longer text start with this one. */
  lemma FramesStep(buf: string, rest: string)
    requires IndexOf(buf, Separator) >= 0
    ensures var i := IndexOf(buf, Separator);
      Frames(buf + rest) == [buf[..i]] + Frames(buf[i + 2..] + rest)
      && Leftover(buf + rest) == Leftover(buf[i + 2..] + rest)
  {
    var i := IndexOf(buf, Separator);
    IndexOfExtends(buf, rest, Separator);
    assert (buf + rest)[..i] == buf[..i];
    assert (buf + rest)[i + 2..] == buf[i + 2..] + rest;
  }

  /** The first occurrence in a prefix is the first occurrence in the whole text. */
  lemma IndexOfExtends(s: string, rest: string, t: string)
    requires t != [] && IndexOf(s, t) >= 0
    ensures IndexOf(s + rest, t) == IndexOf(s, t)
  {
    var k := IndexOf(s, t);
    assert (s + rest)[k..k + |t|] == s[k..k + |t|];
    forall j | 0 <= j < k
      ensures !OccursAt(s + rest, t, j)
    {
      assert !OccursAt(s, t, j);
      assert (s + rest)[j..j + |t|] == s[j..j + |t|];
    }
    IndexOfIs(s + rest, t, k);
  }

  /** A text without the separator has no complete frame. */
  lemma NoFrames(text: string)
    requires !Contains(text, Separator)
    ensures Frames(text) == [] && Leftover(text) == text
  {
  }

  // ---------------------------------------------------------------------------
  // Events

  /** The event a frame carries: the trimmed frame must start with `data:`, and the rest,
      trimmed, must parse. */
  function FrameEvent(frame: string, parse: string -> Option<Json>): Option<Json> {
    var chunk := Trim(frame);
    if !StartsWith(chunk, "data:") then None else parse(Trim(chunk[5..]))
  }

  /** `evt.delta`, when it is truthy.  On `null` the access throws and the catch ignores it,
      which comes to the same. */
  function EventDelta(evt: Option<Json>): (r: Option<Json>)
    ensures r.Some? ==> Truthy(r.value)
  {
    var d := Field(evt, "delta");
    if d.Some? && Truthy(d.value) then d else None
  }

  /** `evt.done` is truthy.  An `error` member throws inside the `try`, and the catch that
      ignores parse errors swallows it too, so it has no effect at all. */
  predicate EventDone(evt: Option<Json>) {
    var d := Field(evt, "done");
    d.Some? && Truthy(d.value)
  }

  /** What one frame does: the deltas it hands on (none or one) and whether it ends the
      stream. */
  datatype Effect = Effect(emitted: seq<Json>, stops: bool)

  /** The body of the `try` block for the event a frame carries. */
  function EffectOf(evt: Option<Json>): (r: Effect)
    ensures |r.emitted| <= 1
    ensures r.emitted == [] <==> EventDelta(evt).None?
    ensures r.stops <==> EventDone(evt)
  {
    var d := EventDelta(evt);
    Effect(if d.Some? then [d.value] else [], EventDone(evt))
  }

  /** The effect of each frame, for a given `JSON.parse`. */
  function FrameEffect(parse: string -> Option<Json>): string -> Effect {
    frame => EffectOf(FrameEvent(frame, parse))
  }

  datatype Outcome = Outcome(deltas: seq<Json>, finished: bool)

  /** Deltas handed on before `o`'s. */
  function Prepend(ds: seq<Json>, o: Outcome): Outcome {
    Outcome(ds + o.deltas, o.finished)
  }

  /** A frame's effect before the outcome of the frames after it. */
  function After(e: Effect, later: Outcome): Outcome {
    if e.stops then Outcome(e.emitted, true) else Prepend(e.emitted, later)
  }

  /** Processing a list of frames: each one's deltas, in order, until one ends the stream. */
  function Handle(frames: seq<string>, step: string -> Effect): Outcome {
    if frames == [] then Outcome([], false)
    else After(step(frames[0]), Handle(frames[1..], step))
  }

  /** The result of reading `text` with frame step `step`: the deltas handed on and
      whether a done event ended the stream are those of handling its complete frames in
      order, and when none did, the buffer holds what follows the last separator. */
  predicate StreamRead(text: string, step: string -> Effect, deltas: seq<Json>, finished: bool, pending: string) {
    && Outcome(deltas, finished) == Handle(Frames(text), step)
    && (!finished ==> pending == Leftover(text) && !Contains(pending, Separator))
  }

  /** `chatStream` once the request succeeded: `chunks` are the decoded reads of the
      response body, `deltas` the values passed to `onDelta`, `finished` says whether a done
      event returned, and `pending` is the buffer when the reader ran out.  The outcome
      depends only on the concatenated text, never on how it was chunked. */
  method ChatStream(chunks: seq<string>, parse: string -> Option<Json>)
    returns (deltas: seq<Json>, finished: bool, pending: string)
    ensures StreamRead(Concat(chunks), FrameEffect(parse), deltas, finished, pending)
  {
    deltas, finished, pending := ReadChunks(chunks, FrameEffect(parse));
  }

  /** The reading loop of `chatStream`, for any reading `step` of one frame. */
  method ReadChunks(chunks: seq<string>, step: string -> Effect)
    returns (deltas: seq<Json>, finished: bool, pending: string)
    ensures StreamRead(Concat(chunks), step, deltas, finished, pending)
  {
    ghost var total := Concat(chunks);
    deltas, finished, pending := [], false, "";
    var buf := "";
    var i := 0;
    assert buf + Concat(chunks[i..]) == total by {
      assert chunks[i..] == chunks;
    }
    while i < |chunks|
      invariant 0 <= i <= |chunks|
      invariant Handle(Frames(total), step) == Prepend(deltas, Handle(Frames(buf + Concat(chunks[i..])), step))
      invariant Leftover(total) == Leftover(buf + Concat(chunks[i..]))
      invariant !Contains(buf, Separator)
    {
      ghost var rest := Concat(chunks[i + 1..]);
      ConcatStep(buf, chunks, i);
      buf := buf + chunks[i];
      FramesAppend(buf, rest);
      HandleAppend(Frames(buf), Frames(Leftover(buf) + rest), step);
      var emitted, done, remaining := DrainFrames(buf, step);
      PrependTwice(deltas, emitted, Handle(Frames(remaining + rest), step));
      deltas := deltas + emitted;
      if done {
        finished := true;
        return;
      }
      buf := remaining;
      i := i + 1;
    }
    NoFrames(buf);
    assert chunks[i..] == [];
    assert buf + "" == buf;
    pending := buf;
  }

  /** The inner loop of `chatStream`: handles every complete frame in the buffer, in order,
      and returns what is left of it, or stops at a done event.  `step` is what one frame
      does (`FrameEffect` of `JSON.parse`). */
  method DrainFrames(buf: string, step: string -> Effect)
    returns (emitted: seq<Json>, finished: bool, remaining: string)
    ensures Outcome(emitted, finished) == Handle(Frames(buf), step)
    ensures !finished ==> remaining == Leftover(buf)
  {
    emitted := [];
    finished := false;
    remaining := buf;
    var idx := IndexOf(remaining, Separator);
    while idx >= 0
      invariant idx == IndexOf(remaining, Separator)
      invariant Handle(Frames(buf), step) == Prepend(emitted, Handle(Frames(remaining), step))
      invariant Leftover(buf) == Leftover(remaining)
      decreases |remaining|
    {
      DrainStep(buf, emitted, remaining, step);
      var e := step(remaining[..idx]);
      remaining := remaining[idx + 2..];
      emitted := emitted + e.emitted;
      if e.stops {
        finished := true;
        return;
      }
      idx := IndexOf(remaining, Separator);
    }
    NoFrames(remaining);
    assert [] + emitted == emitted;
  }

  /** One turn of the inner loop: the first frame's effect comes before the rest. */
  lemma DrainStep(buf: string, emitted: seq<Json>, remaining: string, step: string -> Effect)
    requires IndexOf(remaining, Separator) >= 0
    requires Handle(Frames(buf), step) == Prepend(emitted, Handle(Frames(remaining), step))
    requires Leftover(buf) == Leftover(remaining)
    ensures var i := IndexOf(remaining, Separator);
      var e := step(remaining[..i]);
      var later := remaining[i + 2..];
      && Handle(Frames(buf), step)
         == (if e.stops then Outcome(emitted + e.emitted, true)
             else Prepend(emitted + e.emitted, Handle(Frames(later), step)))
      && Leftover(buf) == Leftover(later)
  {
    var i := IndexOf(remaining, Separator);
    FramesStep(remaining, "");
    assert remaining + "" == remaining && remaining[i + 2..] + "" == remaining[i + 2..];
    HandleCons(remaining[..i], Frames(remaining[i + 2..]), step);
    Assoc(emitted, step(remaining[..i]).emitted, Handle(Frames(remaining[i + 2..]), step).deltas);
  }

  /** Taking in one more chunk leaves the text still to be processed unchanged. */
  lemma ConcatStep(buf: string, chunks: seq<string>, i: int)
    requires 0 <= i < |chunks|
    ensures buf + Concat(chunks[i..]) == (buf + chunks[i]) + Concat(chunks[i + 1..])
  {
    assert chunks[i..][1..] == chunks[i + 1..];
    Assoc(buf, chunks[i], Concat(chunks[i + 1..]));
  }

  /** The frames of a longer text: those of the prefix, then those of its leftover with the
      rest. */
  lemma {:induction false} FramesAppend(buf: string, rest: string)
    ensures Frames(buf + rest) == Frames(buf) + Frames(Leftover(buf) + rest)
    ensures Leftover(buf + rest) == Leftover(Leftover(buf) + rest)
    decreases |buf|
  {
    var i := IndexOf(buf, Separator);
    if i < 0 {
      assert Frames(buf) == [] && Leftover(buf) == buf;
      assert [] + Frames(buf + rest) == Frames(buf + rest);
    } else {
      FramesStep(buf, rest);
      FramesAppend(buf[i + 2..], rest);
      Assoc([buf[..i]], Frames(buf[i + 2..]), Frames(Leftover(buf) + rest));
    }
  }

  /** Handling two lists of frames one after the other. */
  lemma {:induction false} HandleAppend(fs: seq<string>, gs: seq<string>, step: string -> Effect)
    ensures Handle(fs + gs, step)
      == if Handle(fs, step).finished then Handle(fs, step) else Prepend(Handle(fs, step).deltas, Handle(gs, step))
    decreases |fs|
  {
    if fs == [] {
      assert fs + gs == gs;
      assert [] + Handle(gs, step).deltas == Handle(gs, step).deltas;
    } else {
      HandleAppend(fs[1..], gs, step);
      assert fs + gs == [fs[0]] + (fs[1..] + gs);
      HandleCons(fs[0], fs[1..] + gs, step);
      assert fs == [fs[0]] + fs[1..];
      HandleCons(fs[0], fs[1..], step);
      AfterAppend(step(fs[0]), Handle(fs[1..], step), Handle(gs, step));
    }
  }

  /** One effect before two outcomes in a row. */
  lemma AfterAppend(e: Effect, first: Outcome, second: Outcome)
    ensures After(e, if first.finished then first else Prepend(first.deltas, second))
      == if After(e, first).finished then After(e, first) else Prepend(After(e, first).deltas, second)
  {
    if !e.stops && !first.finished {
      PrependTwice(e.emitted, first.deltas, second);
    }
  }

  lemma HandleCons(f: string, fs: seq<string>, step: string -> Effect)
    ensures Handle([f] + fs, step) == After(step(f), Handle(fs, step))
  {
    assert ([f] + fs)[0] == f && ([f] + fs)[1..] == fs;
  }

  lemma PrependTwice(a: seq<Json>, b: seq<Json>, o: Outcome)
    ensures Prepend(a, Prepend(b, o)) == Prepend(a + b, o)
  {
    Assoc(a, b, o.deltas);
  }

  // ---------------------------------------------------------------------------
  // Round trip with the server's writer

  /** `JSON.parse` undoes `JSON.stringify` on the delta events the server writes. */
  ghost predicate ParsesDeltaEvents(parse: string -> Option<Json>) {
    forall d :: parse(Stringify(S.DeltaEvent(d))) == Some(S.DeltaEvent(d))
  }

  /** … and on its done and error events. */
  ghost predicate ParsesWriterEvents(parse: string -> Option<Json>) {
    && ParsesDeltaEvents(parse)
    && parse(Stringify(S.DoneEvent)) == Some(S.DoneEvent)
    && (forall m :: parse(Stringify(S.ErrorEvent(m))) == Some(S.ErrorEvent(m)))
  }

  /** Each delta as the JSON string the client receives. */
  function AsJson(ds: seq<string>): (r: seq<Json>)
    ensures |r| == |ds|
  {
    if ds == [] then [] else [Str(ds[0])] + AsJson(ds[1..])
  }

  /** One written frame is one complete frame, with the separator consumed. */
  lemma FrameThenRest(event: Json, key: string, v: Json, rest: string)
    requires event == Obj([(key, v)]) && (v.Str? || v.Bool?)
    ensures Frames(S.Frame(event) + rest) == [DataLine(event)] + Frames(rest)
    ensures Leftover(S.Frame(event) + rest) == Leftover(rest)
  {
    S.FrameBody(event, key, v);
    var body := "data: " + Stringify(event);
    FirstSeparator(body, rest);
    assert S.Frame(event) + rest == body + Separator + rest;
    assert (body + Separator + rest)[..|body|] == body;
    assert (body + Separator + rest)[|body| + 2..] == rest;
  }

  lemma FirstSeparator(body: string, rest: string)
    requires '\n' !in body
    ensures IndexOf(body + Separator + rest, Separator) == |body|
  {
    var s := body + Separator + rest;
    assert s[|body|..|body| + 2] == Separator;
    forall j | 0 <= j < |body|
      ensures !OccursAt(s, Separator, j)
    {
      assert s[j] == body[j];
    }
    IndexOfIs(s, Separator, |body|);
  }

  /** The client reads a written event back from its frame body. */
  lemma EventOfBody(event: Json, key: string, v: Json, parse: string -> Option<Json>)
    requires event == Obj([(key, v)]) && (v.Str? || v.Bool?)
    requires parse(Stringify(event)) == Some(event)
    ensures FrameEvent(DataLine(event), parse) == Some(event)
    ensures FrameEffect(parse)(DataLine(event)) == EffectOf(Some(event))
  {
    S.FrameBody(event, key, v);
    DataBody(Stringify(event), parse);
  }

  /** A `data:` line whose JSON starts with `{` and ends with `}` carries that JSON. */
  lemma DataBody(j: string, parse: string -> Option<Json>)
    requires j != [] && j[0] == '{' && j[|j| - 1] == '}'
    ensures FrameEvent("data: " + j, parse) == parse(j)
  {
    var body := "data: " + j;
    assert |body| == 6 + |j|;
    assert body[0] == 'd' && body[|body| - 1] == j[|j| - 1];
    TrimNoEdgeSpace(body);
    assert body[..5] == "data:";
    assert body[5..] == " " + j;
    TrimOneSpace(j);
  }

  lemma TrimOneSpace(j: string)
    requires j != [] && !IsSpace(j[0]) && !IsSpace(j[|j| - 1])
    ensures Trim(" " + j) == j
  {
    assert (" " + j)[1..] == j;
    assert TrimStart(" " + j) == TrimStart(j);
    TrimNoEdgeSpace(j);
  }

  /** The text of a written frame before its separator. */
  function DataLine(event: Json): string {
    "data: " + Stringify(event)
  }

  /** A frame step that reads the server's delta frames as their deltas. */
  ghost predicate SeesDeltas(step: string -> Effect) {
    forall d :: d != [] ==> step(DataLine(S.DeltaEvent(d))) == Effect([Str(d)], false)
  }

  /** A frame step that reads the three written events as the server meant them: a delta
      hands on its text, done stops, an error has no effect. */
  ghost predicate ReadsWriterFrames(step: string -> Effect) {
    && SeesDeltas(step)
    && step(DataLine(S.DoneEvent)) == Effect([], true)
    && forall m :: step(DataLine(S.ErrorEvent(m))) == Effect([], false)
  }

  /** The client's frame step reads the three written events as the server meant them
      (for an error, the `throw` inside the `try` is caught and ignored). */
  lemma ReadsWrittenEvents(parse: string -> Option<Json>)
    requires ParsesWriterEvents(parse)
    ensures ReadsWriterFrames(FrameEffect(parse))
  {
    DeltaLinesRead(parse);
    DoneLineRead(parse);
    ErrorLinesRead(parse);
  }

  lemma DeltaLinesRead(parse: string -> Option<Json>)
    requires ParsesDeltaEvents(parse)
    ensures SeesDeltas(FrameEffect(parse))
  {
    forall d | d != []
      ensures FrameEffect(parse)(DataLine(S.DeltaEvent(d))) == Effect([Str(d)], false)
    {
      DeltaLineRead(d, parse);
    }
  }

  lemma ErrorLinesRead(parse: string -> Option<Json>)
    requires forall m :: parse(Stringify(S.ErrorEvent(m))) == Some(S.ErrorEvent(m))
    ensures forall m :: FrameEffect(parse)(DataLine(S.ErrorEvent(m))) == Effect([], false)
  {
    forall m
      ensures FrameEffect(parse)(DataLine(S.ErrorEvent(m))) == Effect([], false)
    {
      ErrorLineRead(m, parse);
    }
  }

  lemma DeltaLineRead(d: string, parse: string -> Option<Json>)
    requires d != [] && parse(Stringify(S.DeltaEvent(d))) == Some(S.DeltaEvent(d))
    ensures FrameEffect(parse)(DataLine(S.DeltaEvent(d))) == Effect([Str(d)], false)
  {
    EventOfBody(S.DeltaEvent(d), "delta", Str(d), parse);
    DeltaEventSeen(d);
  }

  lemma DoneLineRead(parse: string -> Option<Json>)
    requires parse(Stringify(S.DoneEvent)) == Some(S.DoneEvent)
    ensures FrameEffect(parse)(DataLine(S.DoneEvent)) == Effect([], true)
  {
    EventOfBody(S.DoneEvent, "done", Bool(true), parse);
    DoneEventSeen();
  }

  lemma ErrorLineRead(m: string, parse: string -> Option<Json>)
    requires parse(Stringify(S.ErrorEvent(m))) == Some(S.ErrorEvent(m))
    ensures FrameEffect(parse)(DataLine(S.ErrorEvent(m))) == Effect([], false)
  {
    EventOfBody(S.ErrorEvent(m), "error", Str(m), parse);
    ErrorEventSeen(m);
  }

  /** What the client makes of each of the three events the server writes. */
  lemma DeltaEventSeen(d: string)
    requires d != []
    ensures EffectOf(Some(S.DeltaEvent(d))) == Effect([Str(d)], false)
  {
  }

  lemma DoneEventSeen()
    ensures EffectOf(Some(S.DoneEvent)) == Effect([], true)
  {
  }

  lemma ErrorEventSeen(m: string)
    ensures EffectOf(Some(S.ErrorEvent(m))) == Effect([], false)
  {
  }

  /** One delta frame, read back. */
  lemma DeltaFrameThen(d: string, tail: string, step: string -> Effect)
    requires d != [] && SeesDeltas(step)
    ensures Handle(Frames(S.Frame(S.DeltaEvent(d)) + tail), step) == Prepend([Str(d)], Handle(Frames(tail), step))
    ensures Leftover(S.Frame(S.DeltaEvent(d)) + tail) == Leftover(tail)
  {
    FrameThenRest(S.DeltaEvent(d), "delta", Str(d), tail);
    HandleCons(DataLine(S.DeltaEvent(d)), Frames(tail), step);
  }

  /** The frames of deltas followed by more text are handled delta by delta. */
  lemma {:induction false} HandleDeltaFrames(ds: seq<string>, rest: string, step: string -> Effect)
    requires SeesDeltas(step)
    requires forall i :: 0 <= i < |ds| ==> ds[i] != []
    ensures Handle(Frames(FramesFrom(ds) + rest), step) == Prepend(AsJson(ds), Handle(Frames(rest), step))
    ensures Leftover(FramesFrom(ds) + rest) == Leftover(rest)
    decreases |ds|
  {
    if ds == [] {
      assert FramesFrom(ds) + rest == rest;
      assert AsJson(ds) + Handle(Frames(rest), step).deltas == Handle(Frames(rest), step).deltas;
    } else {
      var f := S.Frame(S.DeltaEvent(ds[0]));
      var tail := FramesFrom(ds[1..]) + rest;
      assert FramesFrom(ds) + rest == f + tail by {
        Assoc(f, FramesFrom(ds[1..]), rest);
      }
      HandleDeltaFrames(ds[1..], rest, step);
      DeltaFrameThen(ds[0], tail, step);
      PrependTwice([Str(ds[0])], AsJson(ds[1..]), Handle(Frames(rest), step));
    }
  }

  /** The writer's frames, built from the front. */
  function FramesFrom(ds: seq<string>): string {
    if ds == [] then "" else S.Frame(S.DeltaEvent(ds[0])) + FramesFrom(ds[1..])
  }

  lemma {:induction false} FramesFromIsFramesOf(ds: seq<string>)
    ensures FramesFrom(ds) == S.FramesOf(ds)
    decreases |ds|
  {
    if ds != [] {
      var n := |ds| - 1;
      FramesFromIsFramesOf(ds[..n]);
      FramesFromSnoc(ds[..n], ds[n]);
      assert ds[..n] + [ds[n]] == ds;
    }
  }

  lemma {:induction false} FramesFromSnoc(ds: seq<string>, d: string)
    ensures FramesFrom(ds + [d]) == FramesFrom(ds) + S.Frame(S.DeltaEvent(d))
    decreases |ds|
  {
    if ds == [] {
      assert FramesFrom([d]) == S.Frame(S.DeltaEvent(d)) + FramesFrom([]);
    } else {
      assert (ds + [d])[1..] == ds[1..] + [d];
      FramesFromSnoc(ds[1..], d);
      Assoc(S.Frame(S.DeltaEvent(ds[0])), FramesFrom(ds[1..]), S.Frame(S.DeltaEvent(d)));
    }
  }

  /** The writer's output, handled by a step that reads its frames as meant: every delta,
      in order, then the end frame's outcome. */
  lemma HandleWritten(contents: seq<Option<string>>, failure: Option<string>, step: string -> Effect)
    requires ReadsWriterFrames(step)
    ensures Handle(Frames(S.FramesOf(S.Deltas(contents)) + S.EndFrame(failure)), step)
      == Outcome(AsJson(S.Deltas(contents)), failure.None?)
    ensures Leftover(S.FramesOf(S.Deltas(contents)) + S.EndFrame(failure)) == ""
  {
    var ds := S.Deltas(contents);
    var end := S.EndFrame(failure);
    DeltasNonEmpty(contents);
    FramesFromIsFramesOf(ds);
    HandleDeltaFrames(ds, end, step);
    assert end == end + "";
    if failure.None? {
      FrameThenRest(S.DoneEvent, "done", Bool(true), "");
      HandleCons(DataLine(S.DoneEvent), [], step);
    } else {
      FrameThenRest(S.ErrorEvent(failure.value), "error", Str(failure.value), "");
      HandleCons(DataLine(S.ErrorEvent(failure.value)), [], step);
    }
    assert AsJson(ds) + [] == AsJson(ds);
  }

  /** Whatever the chunking, the client hands on exactly the server's non-empty deltas, in
      order, as strings; it stops at the done frame, and after an upstream failure it
      consumes the error frame, ignores it and waits with an empty buffer. */
  lemma RoundTrip(contents: seq<Option<string>>, failure: Option<string>, chunks: seq<string>,
                  parse: string -> Option<Json>)
    requires ParsesWriterEvents(parse)
    requires Concat(chunks) == S.FramesOf(S.Deltas(contents)) + S.EndFrame(failure)
    ensures Handle(Frames(Concat(chunks)), FrameEffect(parse)) == Outcome(AsJson(S.Deltas(contents)), failure.None?)
    ensures Leftover(Concat(chunks)) == ""
  {
    ReadsWrittenEvents(parse);
    HandleWritten(contents, failure, FrameEffect(parse));
  }

  lemma DeltasNonEmpty(contents: seq<Option<string>>)
    ensures forall i :: 0 <= i < |S.Deltas(contents)| ==> S.Deltas(contents)[i] != []
  {
    forall i | 0 <= i < |S.Deltas(contents)|
      ensures S.Deltas(contents)[i] != []
    {
      var d := S.Deltas(contents)[i];
      assert d in FilterMap(contents, S.DeltaOf);
      FilterMapFrom(contents, S.DeltaOf, d);
    }
  }
}

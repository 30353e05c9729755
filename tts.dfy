/** The synthesis stage of the voice pipeline: each sentence the agent emits is
    cleaned of markdown bold markers and line breaks, synthesised, and the audio is
    sent on in slices of at most 8192 bytes. */
module Tts {
  import opened Events

  /** The slice size of the audio sent downstream. */
  const MinChunkSize: nat := 8192

  // ---------------------------------------------------------------------------
  // Text cleaning
  // ---------------------------------------------------------------------------

  /** `s.replace(pattern, replacement)`: every occurrence of `pattern`, scanning from the left
      and without overlaps, is replaced by `replacement`. */
  function Replace(s: string, pattern: string, replacement: string): string
    requires pattern != ""
    decreases |s|
  {
    if |s| < |pattern| then s
    else if s[..|pattern|] == pattern then replacement + Replace(s[|pattern|..], pattern, replacement)
    else [s[0]] + Replace(s[1..], pattern, replacement)
  }

  /** The text sent to the synthesiser: `**` becomes a space, then each line break
      becomes a space. */
  function Clean(text: string): string
  {
    Replace(Replace(text, "**", " "), "\n", " ")
  }

  /** `s` holds two asterisks in a row. */
  predicate HasBold(s: string)
  {
    exists k :: 0 <= k < |s| - 1 && s[k] == '*' && s[k + 1] == '*'
  }

  /** Replacing one character by one character maps the text character by character. */
  lemma {:induction false} ReplaceCharMaps(s: string, c: char, d: char)
    ensures |Replace(s, [c], [d])| == |s|
    ensures forall k :: 0 <= k < |s| ==> Replace(s, [c], [d])[k] == (if s[k] == c then d else s[k])
    decreases |s|
  {
    if s != [] {
      ReplaceCharMaps(s[1..], c, d);
      assert s[..1] == [s[0]];
    }
  }

  /** No `**` survives the first replacement: a kept `*` is never followed by another
      kept `*`, since the scan would have matched them as a pair. A result that starts
      with `*` comes from a text that starts with `*`. */
  lemma {:induction false} ReplaceBoldLeavesNone(s: string)
    ensures !HasBold(Replace(s, "**", " "))
    ensures Replace(s, "**", " ") != [] && Replace(s, "**", " ")[0] == '*' ==> s != [] && s[0] == '*'
    decreases |s|
  {
    var r := Replace(s, "**", " ");
    if |s| < 2 {
      assert r == s;
    } else if s[..2] == "**" {
      var rest := Replace(s[2..], "**", " ");
      ReplaceBoldLeavesNone(s[2..]);
      assert r == " " + rest;
      assert forall k :: 1 <= k < |r| ==> r[k] == rest[k - 1];
    } else {
      var rest := Replace(s[1..], "**", " ");
      ReplaceBoldLeavesNone(s[1..]);
      assert r == [s[0]] + rest;
      assert forall k :: 1 <= k < |r| ==> r[k] == rest[k - 1];
      assert s[..2] == [s[0], s[1]];
      assert s[1..][0] == s[1];
    }
  }

  /** The cleaned text holds no line break and no `**`. */
  lemma CleanRemovesMarkup(text: string)
    ensures '\n' !in Clean(text)
    ensures !HasBold(Clean(text))
  {
    var bold := Replace(text, "**", " ");
    ReplaceBoldLeavesNone(text);
    ReplaceCharMaps(bold, '\n', ' ');
    var r := Clean(text);
    forall k | 0 <= k < |r|
      ensures r[k] != '\n'
    {
    }
    forall k | 0 <= k < |r| - 1
      ensures !(r[k] == '*' && r[k + 1] == '*')
    {
      assert !(bold[k] == '*' && bold[k + 1] == '*');
    }
  }

  /** A text without the pattern's first character is left as it is. */
  lemma {:induction false} ReplaceAbsent(s: string, pattern: string, replacement: string)
    requires pattern != "" && pattern[0] !in s
    ensures Replace(s, pattern, replacement) == s
    decreases |s|
  {
    if |s| >= |pattern| {
      assert s[..|pattern|][0] == s[0];
      ReplaceAbsent(s[1..], pattern, replacement);
    }
  }

  /** Plain text with no asterisk and no line break is synthesised as it is. */
  lemma CleanKeepsPlainText(text: string)
    requires '*' !in text && '\n' !in text
    ensures Clean(text) == text
  {
    ReplaceAbsent(text, "**", " ");
    ReplaceAbsent(text, "\n", " ");
  }

  // ---------------------------------------------------------------------------
  // Re-chunking
  // ---------------------------------------------------------------------------

  function Min(a: int, b: int): int
  {
    if a <= b then a else b
  }

  /** The slices `raw[i : i + 8192]` for `i` in `range(0, len(raw), 8192)`. */
  function Chunks(raw: Bytes): seq<Bytes>
    decreases |raw|
  {
    if raw == [] then []
    else if |raw| <= MinChunkSize then [raw]
    else [raw[..MinChunkSize]] + Chunks(raw[MinChunkSize..])
  }

  /** Sending the slices one after the other gives back exactly the synthesised audio. */
  lemma {:induction false} ChunksConcat(raw: Bytes)
    ensures Concat(Chunks(raw)) == raw
    decreases |raw|
  {
    if raw != [] {
      if |raw| <= MinChunkSize {
        ConcatSingle(raw);
      } else {
        var head, tail := raw[..MinChunkSize], raw[MinChunkSize..];
        ChunksConcat(tail);
        ConcatAppend([head], Chunks(tail));
        ConcatSingle(head);
        assert raw == head + tail;
      }
    }
  }

  /** Every slice is non-empty and at most 8192 bytes long, every slice but the last is
      exactly 8192 bytes long, there are as many slices as `range` yields, and empty
      audio gives no slice. */
  lemma {:induction false} ChunksSizes(raw: Bytes)
    ensures |Chunks(raw)| == (|raw| + MinChunkSize - 1) / MinChunkSize
    ensures forall k :: 0 <= k < |Chunks(raw)| ==> 0 < |Chunks(raw)[k]| <= MinChunkSize
    ensures forall k :: 0 <= k < |Chunks(raw)| - 1 ==> |Chunks(raw)[k]| == MinChunkSize
    decreases |raw|
  {
    if |raw| > MinChunkSize {
      var tail := raw[MinChunkSize..];
      ChunksSizes(tail);
      var cs := Chunks(raw);
      assert cs == [raw[..MinChunkSize]] + Chunks(tail);
      assert forall k :: 1 <= k < |cs| ==> cs[k] == Chunks(tail)[k - 1];
    }
  }

  /** The slicing loop of `tts_stream`. */
  method Rechunk(raw: Bytes) returns (chunks: seq<Bytes>)
    ensures chunks == Chunks(raw)
  {
    chunks := [];
    var i := 0;
    while i < |raw|
      invariant 0 <= i
      invariant i <= |raw| ==> chunks + Chunks(raw[i..]) == Chunks(raw)
      invariant i > |raw| ==> chunks == Chunks(raw)
      decreases |raw| - i
    {
      var chunk := raw[i..Min(i + MinChunkSize, |raw|)];
      assert chunks + Chunks(raw[i..]) == Chunks(raw);
      if i + MinChunkSize < |raw| {
        assert raw[i..][MinChunkSize..] == raw[i + MinChunkSize..];
        assert raw[i..][..MinChunkSize] == chunk;
        assert Chunks(raw[i..]) == [chunk] + Chunks(raw[i + MinChunkSize..]);
        AppendAssociates(chunks, [chunk], Chunks(raw[i + MinChunkSize..]));
      } else {
        assert chunk == raw[i..];
        assert Chunks(raw[i..]) == [chunk];
        if i + MinChunkSize == |raw| {
          assert raw[i + MinChunkSize..] == [];
        }
      }
      chunks := chunks + [chunk];
      i := i + MinChunkSize;
    }
  }

  // ---------------------------------------------------------------------------
  // The stage over the upstream events
  // ---------------------------------------------------------------------------

  /** The outcome of one synthesis request. */
  datatype Synthesis = Synthesised(audio: Bytes) | SynthesisFailed

  /** The `tts_chunk` events for some slices. */
  function AsAudio(chunks: seq<Bytes>): (es: seq<Event>)
    ensures |es| == |chunks|
    ensures forall k :: 0 <= k < |es| ==> es[k] == TtsChunk(chunks[k])
  {
    seq(|chunks|, k requires 0 <= k < |chunks| => TtsChunk(chunks[k]))
  }

  /** The events that are synthesised: agent sentences with some non-whitespace text,
      and only when the synthesis client could be created. */
  predicate Speaks(clientOk: bool, e: Event)
  {
    clientOk && e.AgentChunk? && !IsBlank(e.text)
  }

  /** What the stage has produced so far and the texts it has sent to the synthesiser
      (their number is the index of the next request). */
  datatype Run = Run(out: seq<Event>, requests: seq<string>)

  /** The audio of one request's outcome; a failure gives none. */
  function AudioOf(s: Synthesis): Bytes
  {
    if s.Synthesised? then s.audio else []
  }

  /** One upstream event: pass it on, and when it is a sentence to speak, synthesise
      it and send its audio in slices. A failed request sends nothing more. */
  function Respond(r: Run, e: Event, clientOk: bool, synthesize: (nat, string) -> Synthesis): Run
  {
    if Speaks(clientOk, e) then
      var text := Clean(e.text);
      var result := synthesize(|r.requests|, text);
      Run(r.out + [e] + AsAudio(Chunks(AudioOf(result))), r.requests + [text])
    else Run(r.out + [e], r.requests)
  }

  function TtsRun(upstream: seq<Event>, clientOk: bool, synthesize: (nat, string) -> Synthesis): Run
    decreases |upstream|
  {
    if upstream == [] then Run([], [])
    else Respond(TtsRun(upstream[..|upstream| - 1], clientOk, synthesize), upstream[|upstream| - 1], clientOk, synthesize)
  }

  /** `tts_stream`: the stage as a loop over the upstream events. */
  method TtsStream(upstream: seq<Event>, clientOk: bool, synthesize: (nat, string) -> Synthesis) returns (out: seq<Event>)
    ensures out == TtsRun(upstream, clientOk, synthesize).out
  {
    out := [];
    var requests: seq<string> := [];
    for i := 0 to |upstream|
      invariant Run(out, requests) == TtsRun(upstream[..i], clientOk, synthesize)
    {
      assert upstream[..i + 1][..i] == upstream[..i];
      var e := upstream[i];
      out := out + [e];
      if clientOk && e.AgentChunk? && e.text != "" && !IsBlank(e.text) {
        var text := Clean(e.text);
        var result := synthesize(|requests|, text);
        requests := requests + [text];
        if result.Synthesised? {
          var chunks := Rechunk(result.audio);
          out := out + AsAudio(chunks);
        } else {
          assert AsAudio(Chunks([])) == [];
        }
      }
    }
    assert upstream[..|upstream|] == upstream;
  }

  /** The cleaned texts of the sentences to speak, in order. */
  function SpokenTexts(upstream: seq<Event>, clientOk: bool): (texts: seq<string>)
    ensures |texts| <= |upstream|
    decreases |upstream|
  {
    if upstream == [] then []
    else
      var last := upstream[|upstream| - 1];
      SpokenTexts(upstream[..|upstream| - 1], clientOk) + (if Speaks(clientOk, last) then [Clean(last.text)] else [])
  }

  /** One request is made per sentence to speak, with its cleaned text, in order;
      nothing else is synthesised, and without a client nothing is. */
  lemma {:induction false} TtsRequestsSpokenTexts(upstream: seq<Event>, clientOk: bool, synthesize: (nat, string) -> Synthesis)
    ensures TtsRun(upstream, clientOk, synthesize).requests == SpokenTexts(upstream, clientOk)
    ensures !clientOk ==> SpokenTexts(upstream, clientOk) == []
    decreases |upstream|
  {
    if upstream != [] {
      TtsRequestsSpokenTexts(upstream[..|upstream| - 1], clientOk, synthesize);
    }
  }

  /** The audio bytes carried by the `tts_chunk` events, in order. */
  function Heard(es: seq<Event>): Bytes
    decreases |es|
  {
    if es == [] then []
    else Heard(es[..|es| - 1]) + (if es[|es| - 1].TtsChunk? then es[|es| - 1].audio else [])
  }

  lemma {:induction false} HeardAppend(xs: seq<Event>, ys: seq<Event>)
    ensures Heard(xs + ys) == Heard(xs) + Heard(ys)
    decreases |ys|
  {
    if ys == [] {
      assert xs + ys == xs;
    } else {
      var init, last := ys[..|ys| - 1], ys[|ys| - 1];
      assert (xs + ys)[..|xs + ys| - 1] == xs + init;
      HeardAppend(xs, init);
    }
  }

  lemma {:induction false} HeardSlices(chunks: seq<Bytes>)
    ensures Heard(AsAudio(chunks)) == Concat(chunks)
    decreases |chunks|
  {
    if chunks != [] {
      var init, last := chunks[..|chunks| - 1], chunks[|chunks| - 1];
      assert AsAudio(chunks) == AsAudio(init) + [TtsChunk(last)];
      HeardAppend(AsAudio(init), [TtsChunk(last)]);
      assert Heard([TtsChunk(last)]) == Heard([]) + last;
      HeardSlices(init);
      assert chunks == init + [last];
      ConcatAppend(init, [last]);
      ConcatSingle(last);
    }
  }

  /** The audio the synthesiser returned for each request, in request order. */
  function Returned(requests: seq<string>, synthesize: (nat, string) -> Synthesis): seq<Bytes>
    decreases |requests|
  {
    if requests == [] then []
    else
      var n := |requests| - 1;
      Returned(requests[..n], synthesize) + [AudioOf(synthesize(n, requests[n]))]
  }

  lemma TtsRunStep(init: seq<Event>, last: Event, clientOk: bool, synthesize: (nat, string) -> Synthesis)
    ensures var r := TtsRun(init, clientOk, synthesize);
            var next := TtsRun(init + [last], clientOk, synthesize);
            next == Respond(r, last, clientOk, synthesize)
  {
    assert (init + [last])[..|init + [last]| - 1] == init;
  }

  /** An event that is not audio adds no audio. */
  lemma HeardSkips(out: seq<Event>, e: Event)
    requires !e.TtsChunk?
    ensures Heard(out + [e]) == Heard(out)
  {
    HeardAppend(out, [e]);
    assert Heard([e]) == Heard([]) + [];
  }

  /** A sentence followed by the slices of `audio` adds exactly `audio`. */
  lemma HeardSpoken(out: seq<Event>, e: Event, audio: Bytes)
    requires !e.TtsChunk?
    ensures Heard(out + [e] + AsAudio(Chunks(audio))) == Heard(out) + audio
  {
    HeardSkips(out, e);
    HeardAppend(out + [e], AsAudio(Chunks(audio)));
    HeardSlices(Chunks(audio));
    ChunksConcat(audio);
  }

  /** One more upstream event keeps the audio sent equal to the audio returned. */
  lemma RespondKeepsAudio(r: Run, e: Event, clientOk: bool, synthesize: (nat, string) -> Synthesis)
    requires !e.TtsChunk?
    requires Heard(r.out) == Concat(Returned(r.requests, synthesize))
    ensures var next := Respond(r, e, clientOk, synthesize);
            Heard(next.out) == Concat(Returned(next.requests, synthesize))
  {
    if Speaks(clientOk, e) {
      var text := Clean(e.text);
      var audio := AudioOf(synthesize(|r.requests|, text));
      var reqs := r.requests + [text];
      assert Respond(r, e, clientOk, synthesize) == Run(r.out + [e] + AsAudio(Chunks(audio)), reqs);
      assert reqs[..|reqs| - 1] == r.requests;
      assert Returned(reqs, synthesize) == Returned(r.requests, synthesize) + [audio];
      HeardSpoken(r.out, e, audio);
      ConcatAppend(Returned(r.requests, synthesize), [audio]);
      ConcatSingle(audio);
    } else {
      HeardSkips(r.out, e);
    }
  }

  /** The audio sent downstream is exactly the audio the synthesiser returned, request
      after request, cut into slices and nothing more: a failed request contributes
      nothing and does not stop the sentences after it. */
  lemma {:induction false} TtsAudioIsSynthesis(upstream: seq<Event>, clientOk: bool, synthesize: (nat, string) -> Synthesis)
    requires forall k :: 0 <= k < |upstream| ==> !upstream[k].TtsChunk?
    ensures var r := TtsRun(upstream, clientOk, synthesize);
            Heard(r.out) == Concat(Returned(r.requests, synthesize))
    decreases |upstream|
  {
    if upstream != [] {
      var init, last := upstream[..|upstream| - 1], upstream[|upstream| - 1];
      TtsAudioIsSynthesis(init, clientOk, synthesize);
      assert upstream == init + [last];
      TtsRunStep(init, last, clientOk, synthesize);
      RespondKeepsAudio(TtsRun(init, clientOk, synthesize), last, clientOk, synthesize);
    }
  }

  /** The events that did not come from the synthesiser. */
  function Upstream(es: seq<Event>): seq<Event>
    decreases |es|
  {
    if es == [] then []
    else Upstream(es[..|es| - 1]) + (if es[|es| - 1].TtsChunk? then [] else [es[|es| - 1]])
  }

  lemma {:induction false} UpstreamAppend(xs: seq<Event>, ys: seq<Event>)
    ensures Upstream(xs + ys) == Upstream(xs) + Upstream(ys)
    decreases |ys|
  {
    if ys == [] {
      assert xs + ys == xs;
    } else {
      var init := ys[..|ys| - 1];
      assert (xs + ys)[..|xs + ys| - 1] == xs + init;
      UpstreamAppend(xs, init);
    }
  }

  lemma {:induction false} UpstreamOfAudio(chunks: seq<Bytes>)
    ensures Upstream(AsAudio(chunks)) == []
    decreases |chunks|
  {
    if chunks != [] {
      assert AsAudio(chunks)[..|chunks| - 1] == AsAudio(chunks[..|chunks| - 1]);
      UpstreamOfAudio(chunks[..|chunks| - 1]);
    }
  }

  /** Every upstream event is passed through unchanged and in order, each one before
      its own audio; the stage adds nothing but audio slices. */
  lemma {:induction false} TtsPassesThrough(upstream: seq<Event>, clientOk: bool, synthesize: (nat, string) -> Synthesis)
    requires forall k :: 0 <= k < |upstream| ==> !upstream[k].TtsChunk?
    ensures Upstream(TtsRun(upstream, clientOk, synthesize).out) == upstream
    decreases |upstream|
  {
    if upstream != [] {
      var init, last := upstream[..|upstream| - 1], upstream[|upstream| - 1];
      var r := TtsRun(init, clientOk, synthesize);
      TtsPassesThrough(init, clientOk, synthesize);
      assert upstream == init + [last];
      TtsRunStep(init, last, clientOk, synthesize);
      var chunks := if Speaks(clientOk, last) then Chunks(AudioOf(synthesize(|r.requests|, Clean(last.text)))) else [];
      assert AsAudio([]) == [];
      assert TtsRun(upstream, clientOk, synthesize).out == r.out + [last] + AsAudio(chunks);
      UpstreamAppend(r.out + [last], AsAudio(chunks));
      UpstreamOfAudio(chunks);
      UpstreamAppend(r.out, [last]);
      assert Upstream([last]) == Upstream([]) + [last];
    }
  }
}

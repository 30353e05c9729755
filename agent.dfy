/** The agent stage of the voice pipeline: every finished utterance is sent to the
    conversational agent, whose streamed reply is cut into sentences, and the
    conversation-history filter that replays a stored thread. */
module Agent {
  import opened Events
  import opened Segmenter

  // ---------------------------------------------------------------------------
  // One reply
  // ---------------------------------------------------------------------------

  /** What the agent streams for one utterance: the `content` of each streamed
      message in order, and whether the stream raised before it finished. */
  datatype AgentReply = AgentReply(tokens: seq<string>, failed: bool)

  /** One streamed message: a message without content changes nothing. */
  function Token(buffer: string, token: string): Fed
  {
    if token == "" then Fed([], buffer) else Feed(buffer, token)
  }

  /** The sentences emitted while the reply streams in, and the buffer it leaves. */
  function Stream(buffer: string, tokens: seq<string>): Fed
    decreases |tokens|
  {
    if tokens == [] then Fed([], buffer)
    else
      var before := Stream(buffer, tokens[..|tokens| - 1]);
      var step := Token(before.rest, tokens[|tokens| - 1]);
      Fed(before.sentences + step.sentences, step.rest)
  }

  /** A whole turn: the streamed sentences, then the end-of-turn flush. A reply
      that fails skips the flush, so its unfinished tail stays in the buffer. */
  function Turn(buffer: string, reply: AgentReply): Fed
  {
    var streamed := Stream(buffer, reply.tokens);
    if reply.failed then streamed
    else
      var flushed := EndOfTurn(streamed.rest);
      Fed(streamed.sentences + flushed.sentences, flushed.rest)
  }

  /** The buffer never holds a complete sentence between tokens, whatever the agent
      streams, and every sentence emitted while streaming is complete. */
  lemma {:induction false} StreamKeepsBufferOpen(buffer: string, tokens: seq<string>)
    requires !HasBoundary(buffer)
    ensures !HasBoundary(Stream(buffer, tokens).rest)
    ensures forall k :: 0 <= k < |Stream(buffer, tokens).sentences| ==> Complete(Stream(buffer, tokens).sentences[k])
    decreases |tokens|
  {
    if tokens != [] {
      var before := Stream(buffer, tokens[..|tokens| - 1]);
      var last := tokens[|tokens| - 1];
      StreamKeepsBufferOpen(buffer, tokens[..|tokens| - 1]);
      FeedLeavesNoBoundary(before.rest, last);
      FeedEmitsCompleteSentences(before.rest, last);
    }
  }

  /** Bookkeeping for one more token: what was emitted before (`done`), what this
      token emits (`emitted`, then the kept buffer `kept`). */
  lemma NonSpaceShift(done: string, emitted: string, kept: string, buffer: string, token: string)
    requires NonSpace(emitted + kept) == NonSpace(buffer + token)
    ensures NonSpace(done + emitted + kept) == NonSpace(done + buffer) + NonSpace(token)
  {
    AppendAssociates(done, emitted, kept);
    NonSpaceAppend(done, emitted + kept);
    NonSpaceAppend(buffer, token);
    NonSpaceAppend(done, buffer);
    AppendAssociates(NonSpace(done), NonSpace(buffer), NonSpace(token));
  }

  /** The sentences emitted while streaming, followed by the buffer left behind, hold
      the non-whitespace characters of the old buffer and of every token, in order. */
  lemma {:induction false} StreamKeepsText(buffer: string, tokens: seq<string>)
    ensures var f := Stream(buffer, tokens);
            NonSpace(Concat(f.sentences) + f.rest) == NonSpace(buffer + Concat(tokens))
    decreases |tokens|
  {
    if tokens == [] {
      assert buffer + Concat(tokens) == buffer;
      assert Concat<char>([]) + buffer == buffer;
    } else {
      var init, last := tokens[..|tokens| - 1], tokens[|tokens| - 1];
      var before := Stream(buffer, init);
      var step := Token(before.rest, last);
      StreamKeepsText(buffer, init);
      TokenKeepsText(before.rest, last);
      NonSpaceShift(Concat(before.sentences), Concat(step.sentences), step.rest, before.rest, last);
      ConcatAppend(before.sentences, step.sentences);
      TokensAppend(buffer, init, last);
      assert tokens == init + [last];
    }
  }

  lemma TokenKeepsText(buffer: string, token: string)
    ensures var f := Token(buffer, token);
            NonSpace(Concat(f.sentences) + f.rest) == NonSpace(buffer + token)
  {
    if token == "" {
      assert Token(buffer, token) == Fed([], buffer);
      assert buffer + token == buffer;
      assert Concat<char>([]) + buffer == buffer;
    } else {
      FeedKeepsText(buffer, token);
    }
  }

  lemma TokensAppend(buffer: string, init: seq<string>, last: string)
    ensures NonSpace(buffer + Concat(init + [last])) == NonSpace(buffer + Concat(init)) + NonSpace(last)
  {
    ConcatAppend(init, [last]);
    ConcatSingle(last);
    AppendAssociates(buffer, Concat(init), last);
    NonSpaceAppend(buffer + Concat(init), last);
  }

  /** A turn that completes leaves nothing but whitespace behind, and everything the
      agent said reaches the emitted sentences: when the turn starts from a blank
      buffer, the emitted sentences hold exactly the non-whitespace characters of
      the tokens. */
  lemma TurnKeepsText(buffer: string, reply: AgentReply)
    requires !reply.failed
    ensures IsBlank(Turn(buffer, reply).rest)
    ensures IsBlank(buffer) ==> NonSpace(Concat(Turn(buffer, reply).sentences)) == NonSpace(Concat(reply.tokens))
  {
    var streamed := Stream(buffer, reply.tokens);
    var flushed := EndOfTurn(streamed.rest);
    var turn := Turn(buffer, reply);
    assert turn == Fed(streamed.sentences + flushed.sentences, flushed.rest);
    StreamKeepsText(buffer, reply.tokens);
    ConcatAppend(streamed.sentences, flushed.sentences);
    NonSpaceAppend(Concat(streamed.sentences), streamed.rest);
    if flushed.sentences == [] {
      NonSpaceOfBlank(streamed.rest);
      assert turn.sentences == streamed.sentences;
      assert NonSpace(Concat(streamed.sentences)) + [] == NonSpace(Concat(streamed.sentences));
    } else {
      ConcatSingle(streamed.rest);
      assert Concat(turn.sentences) == Concat(streamed.sentences) + streamed.rest;
    }
    if IsBlank(buffer) {
      NonSpaceAppend(buffer, Concat(reply.tokens));
      NonSpaceOfBlank(buffer);
    }
  }

  /** A token that completes the buffer into one sentence followed only by
      whitespace emits that sentence and leaves the empty buffer. */
  lemma FeedCompletesSentence(buffer: string, token: string, i: nat)
    requires BoundaryAt(buffer + token, i)
    requires forall k :: 0 <= k < i ==> !IsTerminal((buffer + token)[k])
    requires IsBlank((buffer + token)[i + 1..])
    ensures Feed(buffer, token) == Fed([(buffer + token)[..i + 1]], "")
  {
    var text := buffer + token;
    assert HasBoundary(text);
    assert FindBoundary(text, 0) == Some(i);
    SpaceRunToEnd(text, i + 1);
    assert text[|text|..] == "";
    assert Split("") == [""];
    var parts := Split(text);
    assert parts == [text[..i + 1], ""];
    assert !IsBlank(text[..i + 1]) by {
      assert !IsSpace(text[..i + 1][i]);
    }
    assert parts[..1] == [text[..i + 1]];
    assert NonBlank([text[..i + 1]]) == NonBlank([]) + [text[..i + 1]];
  }

  lemma {:induction false} SpaceRunToEnd(s: string, j: nat)
    requires j <= |s| && IsBlank(s[j..])
    ensures SpaceRunEnd(s, j) == |s|
    decreases |s| - j
  {
    if j < |s| {
      assert s[j..][0] == s[j];
      assert s[j + 1..] == s[j..][1..];
      SpaceRunToEnd(s, j + 1);
    }
  }

  /** A text with no terminal mark before its last character holds no boundary. */
  lemma NoInnerMarkNoBoundary(s: string)
    requires forall k :: 0 <= k < |s| - 1 ==> !IsTerminal(s[k])
    ensures !HasBoundary(s)
  {
  }

  lemma FirstSentence(a: string, b: string, i: nat) returns (first: string)
    requires a != "" && b != ""
    requires forall k :: 0 <= k < |a| - 1 ==> !IsTerminal(a[k])
    requires BoundaryAt(a + b, i) && IsBlank((a + b)[i + 1..])
    requires forall k :: 0 <= k < i ==> !IsTerminal((a + b)[k])
    ensures first == (a + b)[..i + 1] && Stream("", [a, b]) == Fed([first], "")
  {
    assert [a, b][..1] == [a] && [a][..0] == [];
    NoInnerMarkNoBoundary(a);
    assert "" + a == a;
    assert Stream("", [a]) == Fed([], a);
    FeedCompletesSentence(a, b, i);
    first := (a + b)[..i + 1];
  }

  /** A reply of four tokens whose first two complete one sentence and whose last
      two leave an unfinished one. */
  lemma TwoSentenceTurn(a: string, b: string, c: string, d: string, i: nat)
    requires a != "" && b != "" && c != "" && d != ""
    requires forall k :: 0 <= k < |a| - 1 ==> !IsTerminal(a[k])
    requires BoundaryAt(a + b, i) && IsBlank((a + b)[i + 1..])
    requires forall k :: 0 <= k < i ==> !IsTerminal((a + b)[k])
    requires forall k :: 0 <= k < |c + d| - 1 ==> !IsTerminal((c + d)[k])
    requires !IsBlank(c + d)
    ensures Stream("", [a, b, c, d]) == Fed([(a + b)[..i + 1]], c + d)
    ensures Turn("", AgentReply([a, b, c, d], false)) == Fed([(a + b)[..i + 1], c + d], "")
  {
    var first := FirstSentence(a, b, i);
    var tokens := [a, b, c, d];
    assert tokens[..3] == [a, b, c] && [a, b, c][..2] == [a, b];
    assert forall k :: 0 <= k < |c| - 1 ==> !IsTerminal(c[k]) by {
      forall k | 0 <= k < |c| - 1
        ensures !IsTerminal(c[k])
      {
        assert c[k] == (c + d)[k];
      }
    }
    NoInnerMarkNoBoundary(c);
    assert "" + c == c;
    assert Stream("", [a, b, c]) == Fed([first], c);
    NoInnerMarkNoBoundary(c + d);
    assert Stream("", tokens) == Fed([first], c + d);
  }

  /** The turn of the example reply "Hello ", "world. ", "How are ", "you?": the first
      sentence is emitted while streaming and the second by the end-of-turn flush. */
  lemma HelloWorldTurn()
    ensures Stream("", ["Hello ", "world. ", "How are ", "you?"]) == Fed(["Hello world."], "How are you?")
    ensures Turn("", AgentReply(["Hello ", "world. ", "How are ", "you?"], false)) == Fed(["Hello world.", "How are you?"], "")
  {
    var hello, world, howAre, you := "Hello ", "world. ", "How are ", "you?";
    var line := hello + world;
    assert line == "Hello world. ";
    assert line[..12] == "Hello world.";
    assert line[12..] == " ";
    assert howAre + you == "How are you?";
    assert !IsSpace((howAre + you)[0]);
    TwoSentenceTurn(hello, world, howAre, you, 11);
  }

  // ---------------------------------------------------------------------------
  // The stage over the upstream events
  // ---------------------------------------------------------------------------

  /** The `agent_chunk` events for some sentences. */
  function AsChunks(sentences: seq<string>): (es: seq<Event>)
    ensures |es| == |sentences|
    ensures forall k :: 0 <= k < |es| ==> es[k] == AgentChunk(sentences[k])
  {
    seq(|sentences|, k requires 0 <= k < |sentences| => AgentChunk(sentences[k]))
  }

  /** What the stage has produced so far: its output, its sentence buffer, and the
      texts it has sent to the agent (their number is the index of the next call). */
  datatype Run = Run(out: seq<Event>, buffer: string, asked: seq<string>)

  /** One upstream event: pass it on, and when it is a finished utterance ask the
      agent and emit the sentences of its reply. */
  function Respond(r: Run, e: Event, agent: (nat, string) -> AgentReply): Run
  {
    if IsUtterance(e) then
      var turn := Turn(r.buffer, agent(|r.asked|, e.text));
      Run(r.out + [e] + AsChunks(turn.sentences), turn.rest, r.asked + [e.text])
    else Run(r.out + [e], r.buffer, r.asked)
  }

  /** The stage over a prefix of the upstream events. */
  function AgentRun(upstream: seq<Event>, agent: (nat, string) -> AgentReply): Run
    decreases |upstream|
  {
    if upstream == [] then Run([], "", [])
    else Respond(AgentRun(upstream[..|upstream| - 1], agent), upstream[|upstream| - 1], agent)
  }

  /** `agent_stream`: the stage as a loop over the upstream events, with a sentence
      buffer that lives as long as the connection. */
  method AgentStream(upstream: seq<Event>, agent: (nat, string) -> AgentReply) returns (out: seq<Event>)
    ensures out == AgentRun(upstream, agent).out
  {
    var segmenter := new SentenceBuffer();
    var asked: seq<string> := [];
    out := [];
    for i := 0 to |upstream|
      invariant segmenter.Valid()
      invariant Run(out, segmenter.textBuffer, asked) == AgentRun(upstream[..i], agent)
    {
      assert upstream[..i + 1][..i] == upstream[..i];
      var e := upstream[i];
      out := out + [e];
      if IsUtterance(e) {
        var reply := agent(|asked|, e.text);
        asked := asked + [e.text];
        var start := segmenter.textBuffer;
        var emitted: seq<string> := [];
        for t := 0 to |reply.tokens|
          invariant segmenter.Valid()
          invariant Fed(emitted, segmenter.textBuffer) == Stream(start, reply.tokens[..t])
        {
          assert reply.tokens[..t + 1][..t] == reply.tokens[..t];
          var token := reply.tokens[t];
          if token != "" {
            var sentences := segmenter.Push(token);
            emitted := emitted + sentences;
          }
        }
        assert reply.tokens[..|reply.tokens|] == reply.tokens;
        if !reply.failed {
          var flushed := segmenter.EndTurn();
          emitted := emitted + flushed;
        }
        out := out + AsChunks(emitted);
      }
    }
    assert upstream[..|upstream|] == upstream;
  }

  /** The agent is asked once for every finished utterance, with its text, in order,
      and for nothing else. */
  lemma {:induction false} AgentAskedForUtterances(upstream: seq<Event>, agent: (nat, string) -> AgentReply)
    ensures AgentRun(upstream, agent).asked == Utterances(upstream)
    decreases |upstream|
  {
    if upstream != [] {
      var init, last := upstream[..|upstream| - 1], upstream[|upstream| - 1];
      AgentAskedForUtterances(init, agent);
      assert upstream == init + [last];
      UtterancesAppend(init, [last]);
      assert Utterances([last]) == (if IsUtterance(last) then [last.text] else []) + Utterances([]);
    }
  }

  /** The events that did not come from the agent. */
  function Upstream(es: seq<Event>): (r: seq<Event>)
    ensures |r| <= |es|
  {
    if es == [] then []
    else Upstream(es[..|es| - 1]) + (if es[|es| - 1].AgentChunk? then [] else [es[|es| - 1]])
  }

  lemma {:induction false} UpstreamAppend(xs: seq<Event>, ys: seq<Event>)
    ensures Upstream(xs + ys) == Upstream(xs) + Upstream(ys)
    decreases |ys|
  {
    if ys == [] {
      assert xs + ys == xs;
    } else {
      var init, last := ys[..|ys| - 1], ys[|ys| - 1];
      assert (xs + ys)[..|xs + ys| - 1] == xs + init;
      UpstreamAppend(xs, init);
    }
  }

  lemma {:induction false} UpstreamOfChunks(sentences: seq<string>)
    ensures Upstream(AsChunks(sentences)) == []
    decreases |sentences|
  {
    if sentences != [] {
      var init := sentences[..|sentences| - 1];
      assert AsChunks(sentences)[..|sentences| - 1] == AsChunks(init);
      UpstreamOfChunks(init);
    }
  }

  /** One more upstream event adds that event and then agent chunks. */
  lemma AgentRunStep(init: seq<Event>, last: Event, agent: (nat, string) -> AgentReply) returns (sentences: seq<string>)
    ensures AgentRun(init + [last], agent).out == AgentRun(init, agent).out + [last] + AsChunks(sentences)
  {
    var r := AgentRun(init, agent);
    assert (init + [last])[..|init + [last]| - 1] == init;
    sentences := if IsUtterance(last) then Turn(r.buffer, agent(|r.asked|, last.text)).sentences else [];
    assert AsChunks([]) == [];
  }

  lemma UpstreamOfBlock(out: seq<Event>, e: Event, sentences: seq<string>)
    requires !e.AgentChunk?
    ensures Upstream(out + [e] + AsChunks(sentences)) == Upstream(out) + [e]
  {
    UpstreamAppend(out + [e], AsChunks(sentences));
    UpstreamOfChunks(sentences);
    UpstreamAppend(out, [e]);
    assert Upstream([e]) == Upstream([]) + [e];
  }

  /** Every upstream event is passed through unchanged and in order, each one before
      the agent chunks produced for it; the stage adds nothing but agent chunks. */
  lemma {:induction false} AgentPassesThrough(upstream: seq<Event>, agent: (nat, string) -> AgentReply)
    requires forall k :: 0 <= k < |upstream| ==> !upstream[k].AgentChunk?
    ensures Upstream(AgentRun(upstream, agent).out) == upstream
    decreases |upstream|
  {
    if upstream != [] {
      var init, last := upstream[..|upstream| - 1], upstream[|upstream| - 1];
      AgentPassesThrough(init, agent);
      assert upstream == init + [last];
      var sentences := AgentRunStep(init, last, agent);
      UpstreamOfBlock(AgentRun(init, agent).out, last, sentences);
    }
  }

  // ---------------------------------------------------------------------------
  // Conversation history
  // ---------------------------------------------------------------------------

  /** A message of a stored thread; tool and system messages are `OtherMessage`. */
  datatype Message = HumanMessage(content: string) | AIMessage(content: string) | OtherMessage(content: string)

  datatype Speaker = Human | Ai

  /** One `{"type": ..., "text": ...}` entry of the replayed history. */
  datatype Entry = Entry(speaker: Speaker, text: string)

  /** A message is replayed when it is a human message, or an AI message that is the
      last of the thread or is answered by a human message: the AI's final answer of
      each exchange, not its intermediate tool-calling steps. */
  predicate Kept(messages: seq<Message>, i: nat)
    requires i < |messages|
  {
    messages[i].HumanMessage?
    || (messages[i].AIMessage? && (i == |messages| - 1 || messages[i + 1].HumanMessage?))
  }

  /** The positions below `n` of the replayed messages, in increasing order. */
  function KeptIndices(messages: seq<Message>, n: nat): (idx: seq<nat>)
    requires n <= |messages|
    ensures forall k :: 0 <= k < |idx| ==> idx[k] < n && Kept(messages, idx[k])
    ensures forall k, l :: 0 <= k < l < |idx| ==> idx[k] < idx[l]
    ensures forall i :: 0 <= i < n && Kept(messages, i) ==> i in idx
  {
    if n == 0 then []
    else KeptIndices(messages, n - 1) + (if Kept(messages, n - 1) then [n - 1] else [])
  }

  function EntryOf(m: Message): Entry
    requires !m.OtherMessage?
  {
    if m.HumanMessage? then Entry(Human, m.content) else Entry(Ai, m.content)
  }

  /** The replayed messages among the first `n`, in thread order. */
  function HistoryOf(messages: seq<Message>, n: nat): (h: seq<Entry>)
    requires n <= |messages|
  {
    var idx := KeptIndices(messages, n);
    seq(|idx|, k requires 0 <= k < |idx| => EntryOf(messages[idx[k]]))
  }

  /** `get_conversation_history` over the agent's saved state: nothing when there is
      no state or it holds no `messages`, else the replayed messages. */
  method ConversationHistory(state: Option<map<string, seq<Message>>>) returns (response: seq<Entry>)
    ensures state.None? || "messages" !in state.value ==> response == []
    ensures state.Some? && "messages" in state.value ==>
              response == HistoryOf(state.value["messages"], |state.value["messages"]|)
  {
    response := [];
    if state.None? || "messages" !in state.value {
      return;
    }
    var messages := state.value["messages"];
    for i := 0 to |messages|
      invariant response == HistoryOf(messages, i)
    {
      var kept := KeptIndices(messages, i + 1);
      assert kept == KeptIndices(messages, i) + (if Kept(messages, i) then [i] else []);
      if messages[i].HumanMessage? {
        response := response + [Entry(Human, messages[i].content)];
      } else if messages[i].AIMessage? && (i == |messages| - 1 || messages[i + 1].HumanMessage?) {
        response := response + [Entry(Ai, messages[i].content)];
      }
      assert response == HistoryOf(messages, i + 1);
    }
  }

  /** In the replayed history an AI entry is always the last entry or followed by a
      human entry: two AI turns are never replayed back to back. */
  lemma AnswersAlternate(messages: seq<Message>)
    ensures var h := HistoryOf(messages, |messages|);
            forall k :: 0 <= k < |h| - 1 && h[k].speaker == Ai ==> h[k + 1].speaker == Human
  {
    var idx := KeptIndices(messages, |messages|);
    var h := HistoryOf(messages, |messages|);
    forall k | 0 <= k < |h| - 1 && h[k].speaker == Ai
      ensures h[k + 1].speaker == Human
    {
      AnswerIsFollowed(messages, idx, k);
    }
  }

  /** The next replayed message after a replayed AI message is the one right after it:
      the positions of the replayed messages are increasing and list every message
      that is replayed. */
  lemma AnswerIsFollowed(messages: seq<Message>, idx: seq<nat>, k: nat)
    requires forall a :: 0 <= a < |idx| ==> idx[a] < |messages| && Kept(messages, idx[a])
    requires forall a, b :: 0 <= a < b < |idx| ==> idx[a] < idx[b]
    requires forall i :: 0 <= i < |messages| && Kept(messages, i) ==> i in idx
    requires k + 1 < |idx| && messages[idx[k]].AIMessage?
    ensures idx[k + 1] == idx[k] + 1 && messages[idx[k + 1]].HumanMessage?
  {
    var i := idx[k];
    assert i < idx[k + 1] < |messages|;
    assert Kept(messages, i);
    assert Kept(messages, i + 1);
    var m :| 0 <= m < |idx| && idx[m] == i + 1;
    assert idx[k] < idx[m];
    assert k < m;
    assert idx[k + 1] <= idx[m];
  }

}
